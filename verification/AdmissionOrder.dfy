/** The order in which originals are listed does not matter to the verdict. */
module AdmissionOrder {
  import opened Prelude
  import opened GraphTables
  import opened IncludeClosure
  import opened Admission

  /** The second list holds the graphs of the first in another order; `pi` and `inv` undo each other. */
  ghost predicate Rearranges(pi: seq<nat>, inv: seq<nat>, graphs: seq<Graph>, graphs': seq<Graph>) {
    && |pi| == |inv| == |graphs| == |graphs'|
    && (forall k :: 0 <= k < |pi| ==> pi[k] < |graphs| && graphs'[k] == graphs[pi[k]])
    && (forall k :: 0 <= k < |pi| ==> pi[k] < |inv| && inv[pi[k]] == k)
    && forall i :: 0 <= i < |inv| ==> inv[i] < |pi| && pi[inv[i]] == i
  }

  lemma RearrangesBack(pi: seq<nat>, inv: seq<nat>, graphs: seq<Graph>, graphs': seq<Graph>)
    requires Rearranges(pi, inv, graphs, graphs')
    ensures Rearranges(inv, pi, graphs', graphs)
  {
  }

  /** The same originals, under their old and their new indices. */
  ghost predicate SameIndices(pi: seq<nat>, a: set<nat>, b: set<nat>) {
    && (forall k :: k in b ==> k < |pi| && pi[k] in a)
    && forall i :: i in a ==> exists k :: 0 <= k < |pi| && pi[k] == i && k in b
  }

  ghost predicate SameRecords(pi: seq<nat>, a: map<nat, set<Symbol>>, b: map<nat, set<Symbol>>) {
    SameIndices(pi, a.Keys, b.Keys) && forall k :: k in b && k < |pi| && pi[k] in a ==> b[k] == a[pi[k]]
  }

  /** The callbacks answer alike once the indices are renamed. */
  ghost predicate Renames(pi: seq<nat>, c: Compiler, c': Compiler) {
    && (c.resolve.Some? <==> c'.resolve.Some?) && (c.templates.Some? <==> c'.templates.Some?)
    && (c.resolve.Some? ==> forall u, l, k, s, a, b :: SameIndices(pi, a, b) ==>
          c'.resolve.value(u, l, k, s, b) == c.resolve.value(u, l, k, s, a))
    && (c.templates.Some? ==> forall id, a, b, n :: SameRecords(pi, a, b) ==>
          c'.templates.value(Request(id, b, n)) == c.templates.value(Request(id, a, n)))
  }

  lemma SameIndicesBack(pi: seq<nat>, inv: seq<nat>, graphs: seq<Graph>, graphs': seq<Graph>, a: set<nat>, b: set<nat>)
    requires Rearranges(pi, inv, graphs, graphs') && SameIndices(inv, a, b)
    ensures SameIndices(pi, b, a)
  {
    forall k | k in a ensures k < |pi| && pi[k] in b {
      var i :| 0 <= i < |inv| && inv[i] == k && i in b;
    }
    forall i | i in b ensures exists k :: 0 <= k < |pi| && pi[k] == i && k in a {
      assert pi[inv[i]] == i && inv[i] in a;
    }
  }

  lemma SameRecordsBack(pi: seq<nat>, inv: seq<nat>, graphs: seq<Graph>, graphs': seq<Graph>,
                        a: map<nat, set<Symbol>>, b: map<nat, set<Symbol>>)
    requires Rearranges(pi, inv, graphs, graphs') && SameRecords(inv, a, b)
    ensures SameRecords(pi, b, a)
  {
    SameIndicesBack(pi, inv, graphs, graphs', a.Keys, b.Keys);
    forall k | k in a && k < |pi| && pi[k] in b ensures a[k] == b[pi[k]] {
      assert inv[pi[k]] == k;
    }
  }

  lemma RenamesBack(pi: seq<nat>, inv: seq<nat>, graphs: seq<Graph>, graphs': seq<Graph>, c: Compiler, c': Compiler)
    requires Rearranges(pi, inv, graphs, graphs') && Renames(pi, c, c')
    ensures Renames(inv, c', c)
  {
    hide Rearranges, SameIndices, SameRecords;
    if c.resolve.Some? {
      forall u, l, k, s, a, b | SameIndices(inv, a, b)
        ensures c.resolve.value(u, l, k, s, b) == c'.resolve.value(u, l, k, s, a)
      {
        SameIndicesBack(pi, inv, graphs, graphs', a, b);
      }
    }
    if c.templates.Some? {
      forall id, a, b, n | SameRecords(inv, a, b)
        ensures c.templates.value(Request(id, b, n)) == c'.templates.value(Request(id, a, n))
      {
        SameRecordsBack(pi, inv, graphs, graphs', a, b);
      }
    }
  }

  // ---- tables ---------------------------------------------------------------------------------

  /** A place of the rearranged list is the place of the same file in the first list. */
  lemma PlaceMoves(pi: seq<nat>, inv: seq<nat>, graphs: seq<Graph>, graphs': seq<Graph>, p: Place)
    requires Rearranges(pi, inv, graphs, graphs') && InRange(graphs', p)
    ensures InRange(graphs, (pi[p.0], p.1)) && EntryAt(graphs, (pi[p.0], p.1)) == EntryAt(graphs', p)
  {
  }

  lemma CollectableMoves(pi: seq<nat>, inv: seq<nat>, graphs: seq<Graph>, graphs': seq<Graph>, ignored: set<string>)
    requires Rearranges(pi, inv, graphs, graphs') && Collectable(graphs, ignored)
    ensures Collectable(graphs', ignored)
  {
    hide EntryFits, SameSource;
    var done, done' := Places(graphs, ignored), Places(graphs', ignored);
    forall i | 0 <= i < |graphs'| ensures graphs'[i] != map[] { assert graphs[pi[i]] != map[]; }
    forall p: Place | InRange(graphs', p) ensures EntryFits(ignored, p.1, EntryAt(graphs', p)) {
      PlaceMoves(pi, inv, graphs, graphs', p);
    }
    forall p, q | p in done' && q in done' && p.1 == q.1 ensures SameSource(EntryAt(graphs', p), EntryAt(graphs', q)) {
      PlaceMoves(pi, inv, graphs, graphs', p);
      PlaceMoves(pi, inv, graphs, graphs', q);
      assert (pi[p.0], p.1) in done && (pi[q.0], q.1) in done;
    }
    var p :| p in done;
    RearrangesBack(pi, inv, graphs, graphs');
    PlaceMoves(inv, pi, graphs', graphs, p);
    assert (inv[p.0], p.1) in done';
  }

  lemma FilePlacedMoves(pi: seq<nat>, inv: seq<nat>, graphs: seq<Graph>, graphs': seq<Graph>, ignored: set<string>, uri: string)
    requires Rearranges(pi, inv, graphs, graphs') && FilePlaced(Places(graphs', ignored), uri)
    ensures FilePlaced(Places(graphs, ignored), uri)
  {
    var i :| (i, uri) in Places(graphs', ignored);
    PlaceMoves(pi, inv, graphs, graphs', (i, uri));
    assert (pi[i], uri) in Places(graphs, ignored);
  }

  lemma IncludePlacedMoves(pi: seq<nat>, inv: seq<nat>, graphs: seq<Graph>, graphs': seq<Graph>, ignored: set<string>,
                           uri: string, x: string)
    requires Rearranges(pi, inv, graphs, graphs') && IncludePlaced(graphs', Places(graphs', ignored), uri, x)
    ensures IncludePlaced(graphs, Places(graphs, ignored), uri, x)
  {
    var i :| (i, uri) in Places(graphs', ignored) && x in EntryAt(graphs', (i, uri)).source.includes;
    PlaceMoves(pi, inv, graphs, graphs', (i, uri));
    assert (pi[i], uri) in Places(graphs, ignored);
  }

  lemma SymbolPlacedMoves(pi: seq<nat>, inv: seq<nat>, graphs: seq<Graph>, graphs': seq<Graph>, ignored: set<string>, s: Symbol)
    requires Rearranges(pi, inv, graphs, graphs') && SymbolPlaced(graphs', Places(graphs', ignored), s)
    ensures SymbolPlaced(graphs, Places(graphs, ignored), s)
  {
    var p :| p in Places(graphs', ignored) && s in EntryAt(graphs', p).symbols;
    PlaceMoves(pi, inv, graphs, graphs', p);
    assert (pi[p.0], p.1) in Places(graphs, ignored);
  }

  lemma RefPlacedMoves(pi: seq<nat>, inv: seq<nat>, graphs: seq<Graph>, graphs': seq<Graph>, ignored: set<string>, r: Ref)
    requires Rearranges(pi, inv, graphs, graphs') && RefPlaced(graphs', Places(graphs', ignored), r)
    ensures RefPlaced(graphs, Places(graphs, ignored), r)
  {
    var p :| p in Places(graphs', ignored) && r in EntryAt(graphs', p).refs;
    PlaceMoves(pi, inv, graphs, graphs', p);
    assert (pi[p.0], p.1) in Places(graphs, ignored);
  }

  lemma RelationPlacedMoves(pi: seq<nat>, inv: seq<nat>, graphs: seq<Graph>, graphs': seq<Graph>, ignored: set<string>,
                            r: Relation)
    requires Rearranges(pi, inv, graphs, graphs') && RelationPlaced(graphs', Places(graphs', ignored), r)
    ensures RelationPlaced(graphs, Places(graphs, ignored), r)
  {
    var p :| p in Places(graphs', ignored) && r in EntryAt(graphs', p).relations;
    PlaceMoves(pi, inv, graphs, graphs', p);
    assert (pi[p.0], p.1) in Places(graphs, ignored);
  }

  function Moved(pi: seq<nat>, contexts: map<string, set<nat>>): map<string, set<nat>> {
    map uri | uri in contexts :: set k: nat | k < |pi| && pi[k] in contexts[uri]
  }

  lemma SourcesMove(pi: seq<nat>, inv: seq<nat>, graphs: seq<Graph>, graphs': seq<Graph>, ignored: set<string>,
                    sources: map<string, SourceKey>)
    requires Rearranges(pi, inv, graphs, graphs') && SourcesAre(graphs, Places(graphs, ignored), sources)
    ensures SourcesAre(graphs', Places(graphs', ignored), sources)
  {
    hide FilePlaced, IncludePlaced, Rearranges;
    RearrangesBack(pi, inv, graphs, graphs');
    var done, done' := Places(graphs, ignored), Places(graphs', ignored);
    forall uri ensures uri in sources <==> FilePlaced(done', uri) {
      if FilePlaced(done, uri) { FilePlacedMoves(inv, pi, graphs', graphs, ignored, uri); }
      if FilePlaced(done', uri) { FilePlacedMoves(pi, inv, graphs, graphs', ignored, uri); }
    }
    forall p | p in done'
      ensures p.1 in sources && sources[p.1].digest == EntryAt(graphs', p).source.digest
              && sources[p.1].flags == EntryAt(graphs', p).source.flags
    {
      PlaceIsKept(pi, inv, graphs, graphs', ignored, p);
      SourceOf(graphs, done, sources, (pi[p.0], p.1));
    }
    forall uri, x | uri in sources ensures x in sources[uri].includes <==> IncludePlaced(graphs', done', uri, x) {
      if IncludePlaced(graphs, done, uri, x) { IncludePlacedMoves(inv, pi, graphs', graphs, ignored, uri, x); }
      if IncludePlaced(graphs', done', uri, x) { IncludePlacedMoves(pi, inv, graphs, graphs', ignored, uri, x); }
    }
  }

  lemma PlaceIsKept(pi: seq<nat>, inv: seq<nat>, graphs: seq<Graph>, graphs': seq<Graph>, ignored: set<string>, p: Place)
    requires Rearranges(pi, inv, graphs, graphs') && p in Places(graphs', ignored)
    ensures p.0 < |pi| && (pi[p.0], p.1) in Places(graphs, ignored)
    ensures EntryAt(graphs, (pi[p.0], p.1)) == EntryAt(graphs', p)
  {
    PlaceMoves(pi, inv, graphs, graphs', p);
  }

  lemma SymbolsMove(pi: seq<nat>, inv: seq<nat>, graphs: seq<Graph>, graphs': seq<Graph>, ignored: set<string>,
                    symbols: map<string, set<Symbol>>)
    requires Rearranges(pi, inv, graphs, graphs') && SymbolsAre(graphs, Places(graphs, ignored), symbols)
    ensures SymbolsAre(graphs', Places(graphs', ignored), symbols)
  {
    hide SymbolPlaced, Rearranges, HasSymbol;
    RearrangesBack(pi, inv, graphs, graphs');
    forall s ensures HasSymbol(symbols, s) <==> SymbolPlaced(graphs', Places(graphs', ignored), s) {
      if SymbolPlaced(graphs, Places(graphs, ignored), s) { SymbolPlacedMoves(inv, pi, graphs', graphs, ignored, s); }
      if SymbolPlaced(graphs', Places(graphs', ignored), s) { SymbolPlacedMoves(pi, inv, graphs, graphs', ignored, s); }
    }
  }

  lemma ContextsMove(pi: seq<nat>, inv: seq<nat>, graphs: seq<Graph>, graphs': seq<Graph>, ignored: set<string>,
                     contexts: map<string, set<nat>>)
    requires Rearranges(pi, inv, graphs, graphs') && ContextsAre(Places(graphs, ignored), contexts)
    ensures ContextsAre(Places(graphs', ignored), Moved(pi, contexts))
  {
    hide FilePlaced;
    RearrangesBack(pi, inv, graphs, graphs');
    var done, done' := Places(graphs, ignored), Places(graphs', ignored);
    forall uri ensures uri in Moved(pi, contexts) <==> FilePlaced(done', uri) {
      if FilePlaced(done, uri) { FilePlacedMoves(inv, pi, graphs', graphs, ignored, uri); }
      if FilePlaced(done', uri) { FilePlacedMoves(pi, inv, graphs, graphs', ignored, uri); }
    }
    forall uri, k | uri in Moved(pi, contexts) ensures k in Moved(pi, contexts)[uri] <==> (k, uri) in done' {
      if (k, uri) in done' { PlaceIsKept(pi, inv, graphs, graphs', ignored, (k, uri)); }
      if k in Moved(pi, contexts)[uri] {
        assert (pi[k], uri) in done;
        PlaceIsKept(inv, pi, graphs', graphs, ignored, (pi[k], uri));
      }
    }
  }

  lemma TablesMove(pi: seq<nat>, inv: seq<nat>, graphs: seq<Graph>, graphs': seq<Graph>, ignored: set<string>, t: Tables)
    requires Rearranges(pi, inv, graphs, graphs') && IsTables(graphs, ignored, t)
    ensures IsTables(graphs', ignored, t.(contexts := Moved(pi, t.contexts)))
  {
    hide Rearranges, SourcesAre, SymbolsAre, ContextsAre, RefPlaced, RelationPlaced;
    RearrangesBack(pi, inv, graphs, graphs');
    SourcesMove(pi, inv, graphs, graphs', ignored, t.sources);
    SymbolsMove(pi, inv, graphs, graphs', ignored, t.symbols);
    ContextsMove(pi, inv, graphs, graphs', ignored, t.contexts);
    forall r ensures r in t.refs <==> RefPlaced(graphs', Places(graphs', ignored), r) {
      if r in t.refs { RefPlacedMoves(inv, pi, graphs', graphs, ignored, r); }
      if RefPlaced(graphs', Places(graphs', ignored), r) { RefPlacedMoves(pi, inv, graphs, graphs', ignored, r); }
    }
    forall r ensures r in t.relations <==> RelationPlaced(graphs', Places(graphs', ignored), r) {
      if r in t.relations { RelationPlacedMoves(inv, pi, graphs', graphs, ignored, r); }
      if RelationPlaced(graphs', Places(graphs', ignored), r) { RelationPlacedMoves(pi, inv, graphs, graphs', ignored, r); }
    }
  }

  // ---- the comparison -------------------------------------------------------------------------

  lemma ExposedMoves(pi: seq<nat>, inv: seq<nat>, graphs: seq<Graph>, graphs': seq<Graph>, id: string, h: string, body: bool)
    requires Rearranges(pi, inv, graphs, graphs')
    ensures ExposedBySome(graphs, id, h, body) <==> ExposedBySome(graphs', id, h, body)
  {
    hide Exposes;
    if ExposedBySome(graphs, id, h, body) {
      var i :| 0 <= i < |graphs| && Exposes(graphs[i], id, h, body);
      assert graphs'[inv[i]] == graphs[i];
    }
    if ExposedBySome(graphs', id, h, body) {
      var k :| 0 <= k < |graphs'| && Exposes(graphs'[k], id, h, body);
      assert graphs[pi[k]] == graphs'[k];
    }
  }

  lemma ProvidersMove(pi: seq<nat>, inv: seq<nat>, spelling: Spelling, graphs: seq<Graph>, graphs': seq<Graph>, id: string,
                      old': map<string, Bits>, new': map<string, Bits>)
    requires Rearranges(pi, inv, graphs, graphs')
    ensures ProvidersFit(spelling, graphs, id, old', new') <==> ProvidersFit(spelling, graphs', id, old', new')
  {
    hide Rearranges, ExposedBySome;
    forall h ensures ExposedBySome(graphs, id, h, true) <==> ExposedBySome(graphs', id, h, true) {
      ExposedMoves(pi, inv, graphs, graphs', id, h, true);
    }
    assert NeedsBody(graphs, id, old') == NeedsBody(graphs', id, old');
    forall h | h in new' ensures NewHeaderFits(spelling, graphs, id, old', new', h)
                                 <==> NewHeaderFits(spelling, graphs', id, old', new', h) {
      ExposedMoves(pi, inv, graphs, graphs', id, h, NeedsBody(graphs, id, old'));
    }
  }

  lemma RequestMoves(pi: seq<nat>, inv: seq<nat>, graphs: seq<Graph>, graphs': seq<Graph>, id: string, n: set<Symbol>)
    requires Rearranges(pi, inv, graphs, graphs')
    ensures SameRecords(pi, RequestFor(graphs, id, n).originals, RequestFor(graphs', id, n).originals)
  {
    hide RecordsIn;
    var a, b := RequestFor(graphs, id, n).originals, RequestFor(graphs', id, n).originals;
    forall i | i in a ensures exists k :: 0 <= k < |pi| && pi[k] == i && k in b {
      assert graphs'[inv[i]] == graphs[i];
      assert pi[inv[i]] == i && inv[i] in b;
    }
  }

  lemma ContextMoves(pi: seq<nat>, inv: seq<nat>, graphs: seq<Graph>, graphs': seq<Graph>, ignored: set<string>, t: Tables,
                     uri: string)
    requires Rearranges(pi, inv, graphs, graphs') && IsTables(graphs, ignored, t) && uri in t.contexts
    ensures SameIndices(pi, t.contexts[uri], Moved(pi, t.contexts)[uri])
  {
    hide SourcesAre, SymbolsAre;
    forall i | i in t.contexts[uri] ensures exists k :: 0 <= k < |pi| && pi[k] == i && k in Moved(pi, t.contexts)[uri] {
      assert (i, uri) in Places(graphs, ignored);
      assert pi[inv[i]] == i;
    }
  }

  lemma PreservesMoves(pi: seq<nat>, inv: seq<nat>, spelling: Spelling, c: Compiler, c': Compiler, graphs: seq<Graph>,
                       graphs': seq<Graph>, ignored: set<string>, t: Tables, u: Tables)
    requires Rearranges(pi, inv, graphs, graphs') && Renames(pi, c, c')
    requires IsTables(graphs, ignored, t) && Preserves(spelling, c, graphs, t, u)
    ensures Preserves(spelling, c', graphs', t.(contexts := Moved(pi, t.contexts)), u)
  {
    hide Rearranges, Renames, IsTables, SameIdentity, Languages, Preferred, SameCompletion, Flags, Headers, SamePlaces,
         ProvidersFit, RefProven, SameArguments;
    var t' := t.(contexts := Moved(pi, t.contexts));
    forall id | id in u.symbols ensures SymbolKept(spelling, graphs', t'.refs, id, t'.symbols[id], u.symbols[id]) {
      assert SymbolKept(spelling, graphs, t.refs, id, t.symbols[id], u.symbols[id]);
      ProvidersMove(pi, inv, spelling, graphs, graphs', id, Headers(t.symbols[id]), Headers(u.symbols[id]));
    }
    TemplatesMove(pi, inv, c, c', graphs, graphs', t, t', u);
    forall r | r in u.refs - t'.refs ensures RefProven(c', t'.contexts, r) {
      assert RefProven(c, t.contexts, r);
      RefProvenMoves(pi, inv, c, c', graphs, graphs', ignored, t, r);
    }
  }

  lemma RefProvenMoves(pi: seq<nat>, inv: seq<nat>, c: Compiler, c': Compiler, graphs: seq<Graph>, graphs': seq<Graph>,
                       ignored: set<string>, t: Tables, r: Ref)
    requires Rearranges(pi, inv, graphs, graphs') && Renames(pi, c, c') && IsTables(graphs, ignored, t)
    requires RefProven(c, t.contexts, r)
    ensures RefProven(c', Moved(pi, t.contexts), r)
  {
    hide Rearranges, IsTables, SameIndices, SameRecords;
    ContextMoves(pi, inv, graphs, graphs', ignored, t, r.location.uri);
  }

  lemma TemplatesMove(pi: seq<nat>, inv: seq<nat>, c: Compiler, c': Compiler, graphs: seq<Graph>, graphs': seq<Graph>,
                      t: Tables, t': Tables, u: Tables)
    requires Rearranges(pi, inv, graphs, graphs') && Renames(pi, c, c') && t'.symbols == t.symbols
    requires t.symbols.Keys == u.symbols.Keys && TemplatesProven(c, graphs, t, u)
    ensures TemplatesProven(c', graphs', t', u)
  {
    hide Rearranges, SameIndices, SameRecords, SameArguments;
    forall id | id in u.symbols && !SameArguments(t'.symbols[id], u.symbols[id])
      ensures c'.templates.Some? && c'.templates.value(RequestFor(graphs', id, u.symbols[id])) == Proven
    {
      RequestMoves(pi, inv, graphs, graphs', id, u.symbols[id]);
      var a, b := RequestFor(graphs, id, u.symbols[id]), RequestFor(graphs', id, u.symbols[id]);
      assert a == Request(id, a.originals, u.symbols[id]) && b == Request(id, b.originals, u.symbols[id]);
    }
  }

  lemma AcceptanceMoves(pi: seq<nat>, inv: seq<nat>, spelling: Spelling, c: Compiler, c': Compiler, graphs: seq<Graph>,
                        graphs': seq<Graph>, candidate: Graph, ignored: set<string>)
    requires Rearranges(pi, inv, graphs, graphs') && Renames(pi, c, c')
    requires Accepts(spelling, c, graphs, candidate, ignored)
    ensures Accepts(spelling, c', graphs', candidate, ignored)
  {
    hide Collectable, IsTables, Preserves, Renames;
    var t, u :| IsTables(graphs, ignored, t) && IsTables([candidate], ignored, u)
                && Preserves(spelling, c, graphs, t, u);
    CollectableMoves(pi, inv, graphs, graphs', ignored);
    TablesMove(pi, inv, graphs, graphs', ignored, t);
    PreservesMoves(pi, inv, spelling, c, c', graphs, graphs', ignored, t, u);
  }

  /** Listing the originals in another order, with the callbacks' indices renamed alike, never changes the verdict. */
  lemma AcceptanceIsOrderFree(pi: seq<nat>, inv: seq<nat>, spelling: Spelling, c: Compiler, c': Compiler,
                              graphs: seq<Graph>, graphs': seq<Graph>, candidate: Graph, ignored: set<string>)
    requires Rearranges(pi, inv, graphs, graphs') && Renames(pi, c, c')
    ensures Accepts(spelling, c, graphs, candidate, ignored) <==> Accepts(spelling, c', graphs', candidate, ignored)
  {
    hide Rearranges, Renames, Accepts;
    if Accepts(spelling, c, graphs, candidate, ignored) {
      AcceptanceMoves(pi, inv, spelling, c, c', graphs, graphs', candidate, ignored);
    }
    if Accepts(spelling, c', graphs', candidate, ignored) {
      RearrangesBack(pi, inv, graphs, graphs');
      RenamesBack(pi, inv, graphs, graphs', c, c');
      AcceptanceMoves(inv, pi, spelling, c', c, graphs', graphs, candidate, ignored);
    }
  }
}
