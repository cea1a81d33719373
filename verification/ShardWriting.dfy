/** The written form of a shard, and the proof that decoding it returns exactly the records it was made from. */
module ShardWriting {
  import opened Prelude
  import opened ShardBytes
  import opened ShardFormat

  // ---- what can be written --------------------------------------------------------------------

  predicate LocationFits(strings: seq<Bytes>, l: Location) {
    && l.uri in strings && l.startLine < WORD && l.startColumn < WORD && l.endLine < WORD && l.endColumn < WORD
  }

  /** A header's count shares its 32 bits with two bits of directives. */
  predicate HeaderFits(strings: seq<Bytes>, h: Header) {
    h.header in strings && h.directives < 4 && 4 * h.references + h.directives < WORD
  }

  predicate NamingFits(strings: seq<Bytes>, n: Naming) {
    |n.id| == 8 && n.name in strings && n.scope in strings && n.arguments in strings
  }

  predicate UsesFit(strings: seq<Bytes>, u: Uses) {
    LocationFits(strings, u.definition) && LocationFits(strings, u.declaration) && u.references < WORD
  }

  predicate TextsFit(strings: seq<Bytes>, t: Texts) {
    && t.signature in strings && t.suffix in strings && t.documentation in strings
    && t.returnType in strings && t.typeName in strings
  }

  predicate SymbolFits(strings: seq<Bytes>, s: Symbol) {
    && NamingFits(strings, s.naming) && UsesFit(strings, s.uses) && TextsFit(strings, s.texts)
    && |s.headers| < WORD && forall h :: h in s.headers ==> HeaderFits(strings, h)
  }

  predicate UseFits(strings: seq<Bytes>, u: Use) {
    LocationFits(strings, u.location) && |u.container| == 8
  }

  predicate GroupFits(strings: seq<Bytes>, g: Group) {
    |g.symbol| == 8 && |g.uses| < WORD && forall u :: u in g.uses ==> UseFits(strings, u)
  }

  predicate RelationFits(r: Relation) {
    |r.subject| == 8 && |r.object'| == 8
  }

  predicate AllIn(strings: seq<Bytes>, texts: seq<Bytes>) {
    |texts| < WORD && forall t :: t in texts ==> t in strings
  }

  predicate SourceFits(strings: seq<Bytes>, s: Source) {
    s.uri in strings && |s.node.digest| == 8 && AllIn(strings, s.node.includes)
  }

  predicate CommandFits(strings: seq<Bytes>, c: Command) {
    c.directory in strings && AllIn(strings, c.arguments)
  }

  // ---- writing records ------------------------------------------------------------------------

  function PutLocation(strings: seq<Bytes>, l: Location, tail: Bytes): (r: Bytes)
    requires LocationFits(strings, l)
    ensures |r| > |tail|
  {
    PutString(strings, l.uri,
      PutVar(l.startLine, PutVar(l.startColumn, PutVar(l.endLine, PutVar(l.endColumn, tail)))))
  }

  lemma LocationRoundTrip(strings: seq<Bytes>, l: Location, tail: Bytes)
    requires |strings| <= WORD && LocationFits(strings, l)
    ensures LocationAt(strings, PutLocation(strings, l, tail)) == Ok((l, tail))
  {
    hide Var, StringAt, PutVar, PutString;
    var d := PutVar(l.endColumn, tail);
    var c := PutVar(l.endLine, d);
    var b := PutVar(l.startColumn, c);
    VarRoundTrip(l.endColumn, tail);
    VarRoundTrip(l.endLine, d);
    VarRoundTrip(l.startColumn, c);
    VarRoundTrip(l.startLine, b);
    StringRoundTrip(strings, l.uri, PutVar(l.startLine, b));
  }

  function PutHeader(strings: seq<Bytes>, h: Header, tail: Bytes): (r: Bytes)
    requires HeaderFits(strings, h)
    ensures |r| > |tail|
  {
    PutString(strings, h.header, PutVar(4 * h.references + h.directives, tail))
  }

  /** The two low bits and the rest of a packed header count come apart again. */
  lemma HeaderRoundTrip(strings: seq<Bytes>, h: Header, tail: Bytes)
    requires |strings| <= WORD && HeaderFits(strings, h)
    ensures HeaderAt(strings, PutHeader(strings, h, tail)) == Ok((h, tail))
  {
    hide Var, StringAt, PutVar, PutString;
    var packed := 4 * h.references + h.directives;
    VarRoundTrip(packed, tail);
    StringRoundTrip(strings, h.header, PutVar(packed, tail));
  }

  function PutHeaders(strings: seq<Bytes>, hs: seq<Header>, tail: Bytes): (r: Bytes)
    requires forall h :: h in hs ==> HeaderFits(strings, h)
    ensures |r| >= |hs| + |tail|
  {
    if hs == [] then tail else PutHeader(strings, hs[0], PutHeaders(strings, hs[1..], tail))
  }

  lemma {:induction false} HeadersRoundTrip(strings: seq<Bytes>, hs: seq<Header>, tail: Bytes)
    requires |strings| <= WORD && forall h :: h in hs ==> HeaderFits(strings, h)
    ensures HeadersAt(strings, |hs|, PutHeaders(strings, hs, tail)) == Ok((hs, tail))
  {
    hide HeaderAt, PutHeader, HeaderFits;
    if hs != [] {
      HeadersRoundTrip(strings, hs[1..], tail);
      assert [hs[0]] + hs[1..] == hs;
      HeaderRoundTrip(strings, hs[0], PutHeaders(strings, hs[1..], tail));
    }
  }

  function PutStrings(strings: seq<Bytes>, texts: seq<Bytes>, tail: Bytes): (r: Bytes)
    requires forall t :: t in texts ==> t in strings
    ensures |r| >= |texts| + |tail|
  {
    if texts == [] then tail else PutString(strings, texts[0], PutStrings(strings, texts[1..], tail))
  }

  lemma {:induction false} StringsRoundTrip(strings: seq<Bytes>, texts: seq<Bytes>, tail: Bytes)
    requires |strings| <= WORD && forall t :: t in texts ==> t in strings
    ensures StringsAt(strings, |texts|, PutStrings(strings, texts, tail)) == Ok((texts, tail))
  {
    hide StringAt, PutString;
    if texts != [] {
      StringsRoundTrip(strings, texts[1..], tail);
      assert [texts[0]] + texts[1..] == texts;
      StringRoundTrip(strings, texts[0], PutStrings(strings, texts[1..], tail));
    }
  }

  function PutByte(b: Byte, tail: Bytes): (r: Bytes)
    ensures |r| == 1 + |tail|
  {
    [b] + tail
  }

  lemma ByteRoundTrip(b: Byte, tail: Bytes)
    ensures OneByte(PutByte(b, tail)) == Ok((b, tail))
  {
    assert ([b] + tail)[1..] == tail;
  }

  function PutRaw(raw: Bytes, tail: Bytes): (r: Bytes)
    ensures |r| == |raw| + |tail|
  {
    raw + tail
  }

  lemma RawRoundTrip(raw: Bytes, tail: Bytes)
    ensures Take(PutRaw(raw, tail), |raw|) == Ok((raw, tail))
  {
    TakeBack(raw, tail);
  }

  function PutNaming(strings: seq<Bytes>, n: Naming, tail: Bytes): (r: Bytes)
    requires NamingFits(strings, n)
    ensures |r| > |tail|
  {
    PutRaw(n.id, PutByte(n.kind, PutByte(n.language,
      PutString(strings, n.name, PutString(strings, n.scope, PutString(strings, n.arguments, tail))))))
  }

  lemma NamingRoundTrip(strings: seq<Bytes>, n: Naming, tail: Bytes)
    requires |strings| <= WORD && NamingFits(strings, n)
    ensures NamingAt(strings, PutNaming(strings, n, tail)) == Ok((n, tail))
  {
    hide Take, OneByte, StringAt, PutRaw, PutByte, PutString;
    var a := PutString(strings, n.arguments, tail);
    var b := PutString(strings, n.scope, a);
    var c := PutString(strings, n.name, b);
    StringRoundTrip(strings, n.arguments, tail);
    StringRoundTrip(strings, n.scope, a);
    StringRoundTrip(strings, n.name, b);
    ByteRoundTrip(n.language, c);
    ByteRoundTrip(n.kind, PutByte(n.language, c));
    RawRoundTrip(n.id, PutByte(n.kind, PutByte(n.language, c)));
  }

  function PutUses(strings: seq<Bytes>, u: Uses, tail: Bytes): (r: Bytes)
    requires UsesFit(strings, u)
    ensures |r| > |tail|
  {
    PutLocation(strings, u.definition, PutLocation(strings, u.declaration, PutVar(u.references, PutByte(u.flags, tail))))
  }

  lemma UsesRoundTrip(strings: seq<Bytes>, u: Uses, tail: Bytes)
    requires |strings| <= WORD && UsesFit(strings, u)
    ensures UsesAt(strings, PutUses(strings, u, tail)) == Ok((u, tail))
  {
    hide Var, OneByte, LocationAt, PutVar, PutByte, PutLocation;
    var a := PutByte(u.flags, tail);
    var b := PutVar(u.references, a);
    ByteRoundTrip(u.flags, tail);
    VarRoundTrip(u.references, a);
    LocationRoundTrip(strings, u.declaration, b);
    LocationRoundTrip(strings, u.definition, PutLocation(strings, u.declaration, b));
  }

  function PutTexts(strings: seq<Bytes>, t: Texts, tail: Bytes): (r: Bytes)
    requires TextsFit(strings, t)
    ensures |r| > |tail|
  {
    PutString(strings, t.signature, PutString(strings, t.suffix, PutString(strings, t.documentation,
      PutString(strings, t.returnType, PutString(strings, t.typeName, tail)))))
  }

  lemma TextsRoundTrip(strings: seq<Bytes>, t: Texts, tail: Bytes)
    requires |strings| <= WORD && TextsFit(strings, t)
    ensures TextsAt(strings, PutTexts(strings, t, tail)) == Ok((t, tail))
  {
    hide StringAt, PutString;
    var a := PutString(strings, t.typeName, tail);
    var b := PutString(strings, t.returnType, a);
    var c := PutString(strings, t.documentation, b);
    StringRoundTrip(strings, t.typeName, tail);
    StringRoundTrip(strings, t.returnType, a);
    StringRoundTrip(strings, t.documentation, b);
    StringRoundTrip(strings, t.suffix, c);
    StringRoundTrip(strings, t.signature, PutString(strings, t.suffix, c));
  }

  function PutSymbol(strings: seq<Bytes>, s: Symbol, tail: Bytes): (r: Bytes)
    requires SymbolFits(strings, s)
    ensures |r| > |tail|
  {
    PutNaming(strings, s.naming, PutUses(strings, s.uses, PutTexts(strings, s.texts,
      PutVar(|s.headers|, PutHeaders(strings, s.headers, tail)))))
  }

  lemma SymbolRoundTrip(strings: seq<Bytes>, s: Symbol, tail: Bytes)
    requires |strings| <= WORD && SymbolFits(strings, s)
    ensures SymbolAt(strings, PutSymbol(strings, s, tail)) == Ok((s, tail))
  {
    hide Count, NamingAt, UsesAt, TextsAt, HeadersAt, PutVar, PutNaming, PutUses, PutTexts, PutHeaders;
    hide NamingFits, UsesFit, TextsFit, HeaderFits;
    var a := PutHeaders(strings, s.headers, tail);
    var b := PutVar(|s.headers|, a);
    var c := PutTexts(strings, s.texts, b);
    HeadersRoundTrip(strings, s.headers, tail);
    CountRoundTrip(|s.headers|, a);
    TextsRoundTrip(strings, s.texts, b);
    UsesRoundTrip(strings, s.uses, c);
    NamingRoundTrip(strings, s.naming, PutUses(strings, s.uses, c));
  }

  function PutUse(strings: seq<Bytes>, u: Use, tail: Bytes): (r: Bytes)
    requires UseFits(strings, u)
    ensures |r| > |tail|
  {
    PutByte(u.kind, PutLocation(strings, u.location, PutRaw(u.container, tail)))
  }

  lemma UseRoundTrip(strings: seq<Bytes>, u: Use, tail: Bytes)
    requires |strings| <= WORD && UseFits(strings, u)
    ensures UseAt(strings, PutUse(strings, u, tail)) == Ok((u, tail))
  {
    hide Take, OneByte, LocationAt, PutRaw, PutByte, PutLocation;
    RawRoundTrip(u.container, tail);
    LocationRoundTrip(strings, u.location, PutRaw(u.container, tail));
    ByteRoundTrip(u.kind, PutLocation(strings, u.location, PutRaw(u.container, tail)));
  }

  function PutUseList(strings: seq<Bytes>, us: seq<Use>, tail: Bytes): (r: Bytes)
    requires forall u :: u in us ==> UseFits(strings, u)
    ensures |r| >= |us| + |tail|
  {
    if us == [] then tail else PutUse(strings, us[0], PutUseList(strings, us[1..], tail))
  }

  lemma {:induction false} UseListRoundTrip(strings: seq<Bytes>, us: seq<Use>, tail: Bytes)
    requires |strings| <= WORD && forall u :: u in us ==> UseFits(strings, u)
    ensures UseListAt(strings, |us|, PutUseList(strings, us, tail)) == Ok((us, tail))
  {
    hide UseAt, PutUse, UseFits;
    if us != [] {
      UseListRoundTrip(strings, us[1..], tail);
      assert [us[0]] + us[1..] == us;
      UseRoundTrip(strings, us[0], PutUseList(strings, us[1..], tail));
    }
  }

  function PutGroup(strings: seq<Bytes>, g: Group, tail: Bytes): (r: Bytes)
    requires GroupFits(strings, g)
    ensures |r| > |tail|
  {
    PutRaw(g.symbol, PutVar(|g.uses|, PutUseList(strings, g.uses, tail)))
  }

  lemma GroupRoundTrip(strings: seq<Bytes>, g: Group, tail: Bytes)
    requires |strings| <= WORD && GroupFits(strings, g)
    ensures GroupAt(strings, PutGroup(strings, g, tail)) == Ok((g, tail))
  {
    hide Take, Count, UseListAt, PutRaw, PutVar, PutUseList, UseFits;
    var a := PutUseList(strings, g.uses, tail);
    UseListRoundTrip(strings, g.uses, tail);
    CountRoundTrip(|g.uses|, a);
    RawRoundTrip(g.symbol, PutVar(|g.uses|, a));
  }

  function PutRelation(r: Relation, tail: Bytes): (b: Bytes)
    requires RelationFits(r)
    ensures |b| > |tail|
  {
    PutRaw(r.subject, PutByte(r.relation, PutRaw(r.object', tail)))
  }

  lemma RelationRoundTrip(r: Relation, tail: Bytes)
    requires RelationFits(r)
    ensures RelationAt(PutRelation(r, tail)) == Ok((r, tail))
  {
    hide Take, OneByte, PutRaw, PutByte;
    RawRoundTrip(r.object', tail);
    ByteRoundTrip(r.relation, PutRaw(r.object', tail));
    RawRoundTrip(r.subject, PutByte(r.relation, PutRaw(r.object', tail)));
  }

  function PutSource(strings: seq<Bytes>, s: Source, tail: Bytes): (r: Bytes)
    requires SourceFits(strings, s)
    ensures |r| > |tail|
  {
    PutByte(s.node.flags, PutString(strings, s.uri, PutRaw(s.node.digest,
      PutVar(|s.node.includes|, PutStrings(strings, s.node.includes, tail)))))
  }

  lemma SourceRoundTrip(strings: seq<Bytes>, s: Source, tail: Bytes)
    requires |strings| <= WORD && SourceFits(strings, s)
    ensures SourceAt(strings, PutSource(strings, s, tail)) == Ok((s, tail))
  {
    hide Take, OneByte, StringAt, Count, StringsAt, PutRaw, PutByte, PutString, PutVar, PutStrings;
    var a := PutStrings(strings, s.node.includes, tail);
    var b := PutVar(|s.node.includes|, a);
    var c := PutRaw(s.node.digest, b);
    StringsRoundTrip(strings, s.node.includes, tail);
    CountRoundTrip(|s.node.includes|, a);
    RawRoundTrip(s.node.digest, b);
    StringRoundTrip(strings, s.uri, c);
    ByteRoundTrip(s.node.flags, PutString(strings, s.uri, c));
  }

  // ---- writing chunk bodies -------------------------------------------------------------------

  function PutSymbols(strings: seq<Bytes>, ss: seq<Symbol>): (r: Bytes)
    requires forall s :: s in ss ==> SymbolFits(strings, s)
  {
    if ss == [] then [] else PutSymbol(strings, ss[0], PutSymbols(strings, ss[1..]))
  }

  lemma {:induction false} SymbolsRoundTrip(strings: seq<Bytes>, ss: seq<Symbol>)
    requires |strings| <= WORD && forall s :: s in ss ==> SymbolFits(strings, s)
    ensures SymbolsIn(strings, PutSymbols(strings, ss)) == Ok(ss)
  {
    hide SymbolAt, PutSymbol, SymbolFits;
    if ss != [] {
      SymbolsRoundTrip(strings, ss[1..]);
      assert [ss[0]] + ss[1..] == ss;
      SymbolRoundTrip(strings, ss[0], PutSymbols(strings, ss[1..]));
    }
  }

  function PutGroups(strings: seq<Bytes>, gs: seq<Group>): (r: Bytes)
    requires forall g :: g in gs ==> GroupFits(strings, g)
  {
    if gs == [] then [] else PutGroup(strings, gs[0], PutGroups(strings, gs[1..]))
  }

  function FlatAll(gs: seq<Group>): seq<Ref> {
    if gs == [] then [] else Flat(gs[0]) + FlatAll(gs[1..])
  }

  /** References are stored by symbol; decoding names the symbol again in each of them. */
  lemma {:induction false} RefsRoundTrip(strings: seq<Bytes>, gs: seq<Group>)
    requires |strings| <= WORD && forall g :: g in gs ==> GroupFits(strings, g)
    ensures RefsIn(strings, PutGroups(strings, gs)) == Ok(FlatAll(gs))
  {
    hide GroupAt, PutGroup, GroupFits, Flat;
    if gs != [] {
      RefsRoundTrip(strings, gs[1..]);
      GroupRoundTrip(strings, gs[0], PutGroups(strings, gs[1..]));
    }
  }

  function PutRelations(rs: seq<Relation>): (b: Bytes)
    requires forall r :: r in rs ==> RelationFits(r)
  {
    if rs == [] then [] else PutRelation(rs[0], PutRelations(rs[1..]))
  }

  lemma {:induction false} RelationsRoundTrip(rs: seq<Relation>)
    requires forall r :: r in rs ==> RelationFits(r)
    ensures RelationsIn(PutRelations(rs)) == Ok(rs)
  {
    hide RelationAt, PutRelation, RelationFits;
    if rs != [] {
      RelationsRoundTrip(rs[1..]);
      assert [rs[0]] + rs[1..] == rs;
      RelationRoundTrip(rs[0], PutRelations(rs[1..]));
    }
  }

  function PutSources(strings: seq<Bytes>, ss: seq<Source>): (r: Bytes)
    requires forall s :: s in ss ==> SourceFits(strings, s)
  {
    if ss == [] then [] else PutSource(strings, ss[0], PutSources(strings, ss[1..]))
  }

  function AddSources(sources: map<Bytes, Node>, ss: seq<Source>): map<Bytes, Node>
    decreases |ss|
  {
    if ss == [] then sources else AddSources(sources[ss[0].uri := ss[0].node], ss[1..])
  }

  predicate NewSources(sources: map<Bytes, Node>, ss: seq<Source>) {
    && (forall i :: 0 <= i < |ss| ==> ss[i].uri !in sources)
    && forall i, j :: 0 <= i < j < |ss| ==> ss[i].uri != ss[j].uri
  }

  lemma {:induction false} SourcesRoundTrip(strings: seq<Bytes>, ss: seq<Source>, sources: map<Bytes, Node>)
    requires |strings| <= WORD && forall s :: s in ss ==> SourceFits(strings, s)
    requires NewSources(sources, ss)
    decreases |ss|
    ensures SourcesIn(strings, PutSources(strings, ss), sources) == Ok(AddSources(sources, ss))
  {
    hide SourceAt, PutSource, SourceFits;
    if ss != [] {
      SourceRoundTrip(strings, ss[0], PutSources(strings, ss[1..]));
      SourcesRoundTrip(strings, ss[1..], sources[ss[0].uri := ss[0].node]);
    }
  }

  function PutCommand(strings: seq<Bytes>, c: Command): (r: Bytes)
    requires CommandFits(strings, c)
  {
    PutString(strings, c.directory, PutVar(|c.arguments|, PutStrings(strings, c.arguments, [])))
  }

  lemma CommandRoundTrip(strings: seq<Bytes>, c: Command)
    requires |strings| <= WORD && CommandFits(strings, c)
    ensures CommandIn(strings, PutCommand(strings, c)) == Ok(c)
  {
    hide StringAt, Count, StringsAt, PutString, PutVar, PutStrings;
    var a := PutStrings(strings, c.arguments, []);
    StringsRoundTrip(strings, c.arguments, []);
    CountRoundTrip(|c.arguments|, a);
    StringRoundTrip(strings, c.directory, PutVar(|c.arguments|, a));
  }
}
