/** The decoder as it runs: one reader per chunk, and lists that grow record by record. */
module ShardDecoder {
  import opened Prelude
  import opened ShardBytes
  import opened ShardFormat

  /** Appending what is left to what was read gives the whole list. */
  predicate Continues<T(==)>(whole: Result<(seq<T>, Bytes)>, left: Result<(seq<T>, Bytes)>, soFar: seq<T>) {
    match left
    case Ok(t) => whole == Ok((soFar + t.0, t.1))
    case Err(reason) => whole == Err(reason)
  }

  predicate ContinuesAll<T(==)>(whole: Result<seq<T>>, left: Result<seq<T>>, soFar: seq<T>) {
    match left
    case Ok(t) => whole == Ok(soFar + t)
    case Err(reason) => whole == Err(reason)
  }

  lemma ContinuesStart<T>(whole: Result<(seq<T>, Bytes)>)
    ensures Continues(whole, whole, [])
  {
    if whole.Ok? { assert [] + whole.value.0 == whole.value.0; }
  }

  lemma ContinuesAllStart<T>(whole: Result<seq<T>>)
    ensures ContinuesAll(whole, whole, [])
  {
    if whole.Ok? { assert [] + whole.value == whole.value; }
  }

  // ---- records --------------------------------------------------------------------------------

  method ReadLocation(reader: Reader, strings: seq<Bytes>) returns (r: Result<Location>)
    requires reader.Valid()
    modifies reader
    ensures reader.Valid() && Runs(LocationAt(strings, old(reader.Rest())), r, reader.Rest())
  {
    hide Var, StringAt;
    var uri :- reader.ReadString(strings);
    var startLine :- reader.ReadVar();
    var startColumn :- reader.ReadVar();
    var endLine :- reader.ReadVar();
    var endColumn :- reader.ReadVar();
    return Ok(Location(uri, startLine, startColumn, endLine, endColumn));
  }

  method ReadHeader(reader: Reader, strings: seq<Bytes>) returns (r: Result<Header>)
    requires reader.Valid()
    modifies reader
    ensures reader.Valid() && Runs(HeaderAt(strings, old(reader.Rest())), r, reader.Rest())
  {
    hide Var, StringAt;
    var header :- reader.ReadString(strings);
    var packed :- reader.ReadVar();
    return Ok(Header(header, packed / 4, packed % 4));
  }

  method ReadHeaders(reader: Reader, strings: seq<Bytes>, count: nat) returns (r: Result<seq<Header>>)
    requires reader.Valid()
    modifies reader
    ensures reader.Valid() && Runs(HeadersAt(strings, count, old(reader.Rest())), r, reader.Rest())
  {
    hide HeaderAt;
    var headers := [];
    ghost var whole := HeadersAt(strings, count, reader.Rest());
    ContinuesStart(whole);
    for i := 0 to count
      invariant reader.Valid() && Continues(whole, HeadersAt(strings, count - i, reader.Rest()), headers)
    {
      NextHeader(whole, strings, count - i, reader.Rest(), headers);
      var header :- ReadHeader(reader, strings);
      headers := headers + [header];
    }
    assert headers + [] == headers;
    return Ok(headers);
  }

  lemma NextHeader(whole: Result<(seq<Header>, Bytes)>, strings: seq<Bytes>, n: nat, s: Bytes, headers: seq<Header>)
    requires n > 0 && Continues(whole, HeadersAt(strings, n, s), headers)
    ensures match HeaderAt(strings, s)
            case Ok(t) => Continues(whole, HeadersAt(strings, n - 1, t.1), headers + [t.0])
            case Err(reason) => whole == Err(reason)
  {
    hide HeaderAt;
    if HeadersAt(strings, n, s).Ok? {
      var t := HeaderAt(strings, s).value;
      var rest := HeadersAt(strings, n - 1, t.1).value;
      assert headers + ([t.0] + rest.0) == (headers + [t.0]) + rest.0;
    }
  }

  method ReadStrings(reader: Reader, strings: seq<Bytes>, count: nat) returns (r: Result<seq<Bytes>>)
    requires reader.Valid()
    modifies reader
    ensures reader.Valid() && Runs(StringsAt(strings, count, old(reader.Rest())), r, reader.Rest())
  {
    hide StringAt;
    var texts := [];
    ghost var whole := StringsAt(strings, count, reader.Rest());
    ContinuesStart(whole);
    for i := 0 to count
      invariant reader.Valid() && Continues(whole, StringsAt(strings, count - i, reader.Rest()), texts)
    {
      NextString(whole, strings, count - i, reader.Rest(), texts);
      var text :- reader.ReadString(strings);
      texts := texts + [text];
    }
    assert texts + [] == texts;
    return Ok(texts);
  }

  lemma NextString(whole: Result<(seq<Bytes>, Bytes)>, strings: seq<Bytes>, n: nat, s: Bytes, texts: seq<Bytes>)
    requires n > 0 && Continues(whole, StringsAt(strings, n, s), texts)
    ensures match StringAt(strings, s)
            case Ok(t) => Continues(whole, StringsAt(strings, n - 1, t.1), texts + [t.0])
            case Err(reason) => whole == Err(reason)
  {
    hide StringAt;
    if StringsAt(strings, n, s).Ok? {
      var t := StringAt(strings, s).value;
      var rest := StringsAt(strings, n - 1, t.1).value;
      assert texts + ([t.0] + rest.0) == (texts + [t.0]) + rest.0;
    }
  }

  method ReadNaming(reader: Reader, strings: seq<Bytes>) returns (r: Result<Naming>)
    requires reader.Valid()
    modifies reader
    ensures reader.Valid() && Runs(NamingAt(strings, old(reader.Rest())), r, reader.Rest())
  {
    hide Take, OneByte, StringAt;
    var id :- reader.TakeRaw(8);
    var kind :- reader.ReadByte();
    var language :- reader.ReadByte();
    var name :- reader.ReadString(strings);
    var scope :- reader.ReadString(strings);
    var arguments :- reader.ReadString(strings);
    return Ok(Naming(id, kind, language, name, scope, arguments));
  }

  method ReadUses(reader: Reader, strings: seq<Bytes>) returns (r: Result<Uses>)
    requires reader.Valid()
    modifies reader
    ensures reader.Valid() && Runs(UsesAt(strings, old(reader.Rest())), r, reader.Rest())
  {
    hide LocationAt, Var, OneByte;
    var definition :- ReadLocation(reader, strings);
    var declaration :- ReadLocation(reader, strings);
    var references :- reader.ReadVar();
    var flags :- reader.ReadByte();
    return Ok(Uses(definition, declaration, references, flags));
  }

  method ReadTexts(reader: Reader, strings: seq<Bytes>) returns (r: Result<Texts>)
    requires reader.Valid()
    modifies reader
    ensures reader.Valid() && Runs(TextsAt(strings, old(reader.Rest())), r, reader.Rest())
  {
    hide StringAt;
    var signature :- reader.ReadString(strings);
    var suffix :- reader.ReadString(strings);
    var documentation :- reader.ReadString(strings);
    var returnType :- reader.ReadString(strings);
    var typeName :- reader.ReadString(strings);
    return Ok(Texts(signature, suffix, documentation, returnType, typeName));
  }

  method ReadSymbol(reader: Reader, strings: seq<Bytes>) returns (r: Result<Symbol>)
    requires reader.Valid()
    modifies reader
    ensures reader.Valid() && Runs(SymbolAt(strings, old(reader.Rest())), r, reader.Rest())
  {
    hide NamingAt, UsesAt, TextsAt, Count, HeadersAt;
    var naming :- ReadNaming(reader, strings);
    var uses :- ReadUses(reader, strings);
    var texts :- ReadTexts(reader, strings);
    var count :- reader.ReadCount();
    var headers :- ReadHeaders(reader, strings, count);
    return Ok(Symbol(naming, uses, texts, headers));
  }

  method ReadUse(reader: Reader, strings: seq<Bytes>) returns (r: Result<Use>)
    requires reader.Valid()
    modifies reader
    ensures reader.Valid() && Runs(UseAt(strings, old(reader.Rest())), r, reader.Rest())
  {
    hide LocationAt, Take, OneByte;
    var kind :- reader.ReadByte();
    var location :- ReadLocation(reader, strings);
    var container :- reader.TakeRaw(8);
    return Ok(Use(kind, location, container));
  }

  method ReadRelation(reader: Reader) returns (r: Result<Relation>)
    requires reader.Valid()
    modifies reader
    ensures reader.Valid() && Runs(RelationAt(old(reader.Rest())), r, reader.Rest())
  {
    hide Take, OneByte;
    var subject :- reader.TakeRaw(8);
    var relation :- reader.ReadByte();
    var object' :- reader.TakeRaw(8);
    return Ok(Relation(subject, relation, object'));
  }

  method ReadSource(reader: Reader, strings: seq<Bytes>) returns (r: Result<Source>)
    requires reader.Valid()
    modifies reader
    ensures reader.Valid() && Runs(SourceAt(strings, old(reader.Rest())), r, reader.Rest())
  {
    hide Take, OneByte, StringAt, Count, StringsAt;
    var flags :- reader.ReadByte();
    var uri :- reader.ReadString(strings);
    var digest :- reader.TakeRaw(8);
    var count :- reader.ReadCount();
    var includes :- ReadStrings(reader, strings, count);
    return Ok(Source(uri, Node(flags, digest, includes)));
  }

  // ---- chunks ---------------------------------------------------------------------------------

  method ReadSymbols(data: Bytes, strings: seq<Bytes>) returns (r: Result<seq<Symbol>>)
    ensures r == SymbolsIn(strings, data)
  {
    hide SymbolAt;
    var reader := new Reader(data);
    var symbols := [];
    ContinuesAllStart(SymbolsIn(strings, data));
    while reader.Remaining() > 0
      invariant reader.Valid() && fresh(reader)
      invariant ContinuesAll(SymbolsIn(strings, data), SymbolsIn(strings, reader.Rest()), symbols)
      decreases reader.Remaining()
    {
      NextSymbol(SymbolsIn(strings, data), strings, reader.Rest(), symbols);
      var symbol :- ReadSymbol(reader, strings);
      symbols := symbols + [symbol];
    }
    assert symbols + [] == symbols;
    return Ok(symbols);
  }

  lemma NextSymbol(whole: Result<seq<Symbol>>, strings: seq<Bytes>, s: Bytes, symbols: seq<Symbol>)
    requires s != [] && ContinuesAll(whole, SymbolsIn(strings, s), symbols)
    ensures match SymbolAt(strings, s)
            case Ok(t) => ContinuesAll(whole, SymbolsIn(strings, t.1), symbols + [t.0])
            case Err(reason) => whole == Err(reason)
  {
    hide SymbolAt;
    if SymbolsIn(strings, s).Ok? {
      var t := SymbolAt(strings, s).value;
      var rest := SymbolsIn(strings, t.1).value;
      assert symbols + ([t.0] + rest) == (symbols + [t.0]) + rest;
    }
  }

  lemma NextUse(whole: Result<(seq<Use>, Bytes)>, strings: seq<Bytes>, n: nat, s: Bytes, uses: seq<Use>)
    requires n > 0 && Continues(whole, UseListAt(strings, n, s), uses)
    ensures match UseAt(strings, s)
            case Ok(t) => Continues(whole, UseListAt(strings, n - 1, t.1), uses + [t.0])
            case Err(reason) => whole == Err(reason)
  {
    hide UseAt;
    if UseListAt(strings, n, s).Ok? {
      var t := UseAt(strings, s).value;
      var rest := UseListAt(strings, n - 1, t.1).value;
      assert uses + ([t.0] + rest.0) == (uses + [t.0]) + rest.0;
    }
  }

  /** The inner loop over one symbol's references, which appends them to the flat list as it goes. */
  method ReadGroup(reader: Reader, strings: seq<Bytes>, refs: seq<Ref>) returns (r: Result<seq<Ref>>)
    requires reader.Valid()
    modifies reader
    ensures reader.Valid()
    ensures match GroupAt(strings, old(reader.Rest()))
            case Ok(t) => r == Ok(refs + Flat(t.0)) && reader.Rest() == t.1
            case Err(reason) => r == Err(reason)
  {
    hide Take, Count, UseAt, UseListAt;
    var symbol :- reader.TakeRaw(8);
    var count :- reader.ReadCount();
    var all := refs;
    ghost var uses := [];
    ghost var whole := UseListAt(strings, count, reader.Rest());
    ContinuesStart(whole);
    for i := 0 to count
      invariant reader.Valid() && Continues(whole, UseListAt(strings, count - i, reader.Rest()), uses)
      invariant all == refs + Flat(Group(symbol, uses))
    {
      NextUse(whole, strings, count - i, reader.Rest(), uses);
      var use :- ReadUse(reader, strings);
      FlatNext(symbol, uses, use);
      all := all + [Ref(symbol, use)];
      uses := uses + [use];
    }
    NoUseLeft(whole, strings, reader.Rest(), uses);
    return Ok(all);
  }

  lemma NoUseLeft(whole: Result<(seq<Use>, Bytes)>, strings: seq<Bytes>, s: Bytes, uses: seq<Use>)
    requires Continues(whole, UseListAt(strings, 0, s), uses)
    ensures whole == Ok((uses, s))
  {
    assert uses + [] == uses;
  }

  lemma FlatNext(symbol: Bytes, uses: seq<Use>, use: Use)
    ensures Flat(Group(symbol, uses + [use])) == Flat(Group(symbol, uses)) + [Ref(symbol, use)]
  {
  }

  method ReadRefs(data: Bytes, strings: seq<Bytes>) returns (r: Result<seq<Ref>>)
    ensures r == RefsIn(strings, data)
  {
    hide GroupAt, Flat;
    var reader := new Reader(data);
    var refs := [];
    ContinuesAllStart(RefsIn(strings, data));
    while reader.Remaining() > 0
      invariant reader.Valid() && fresh(reader)
      invariant ContinuesAll(RefsIn(strings, data), RefsIn(strings, reader.Rest()), refs)
      decreases reader.Remaining()
    {
      NextGroup(RefsIn(strings, data), strings, reader.Rest(), refs);
      refs :- ReadGroup(reader, strings, refs);
    }
    assert refs + [] == refs;
    return Ok(refs);
  }

  lemma NextGroup(whole: Result<seq<Ref>>, strings: seq<Bytes>, s: Bytes, refs: seq<Ref>)
    requires s != [] && ContinuesAll(whole, RefsIn(strings, s), refs)
    ensures match GroupAt(strings, s)
            case Ok(t) => ContinuesAll(whole, RefsIn(strings, t.1), refs + Flat(t.0))
            case Err(reason) => whole == Err(reason)
  {
    hide GroupAt, Flat;
    if RefsIn(strings, s).Ok? {
      var t := GroupAt(strings, s).value;
      var rest := RefsIn(strings, t.1).value;
      assert refs + (Flat(t.0) + rest) == (refs + Flat(t.0)) + rest;
    }
  }

  method ReadRelations(data: Bytes) returns (r: Result<seq<Relation>>)
    ensures r == RelationsIn(data)
  {
    hide RelationAt;
    var reader := new Reader(data);
    var relations := [];
    ContinuesAllStart(RelationsIn(data));
    while reader.Remaining() > 0
      invariant reader.Valid() && fresh(reader)
      invariant ContinuesAll(RelationsIn(data), RelationsIn(reader.Rest()), relations)
      decreases reader.Remaining()
    {
      NextRelation(RelationsIn(data), reader.Rest(), relations);
      var relation :- ReadRelation(reader);
      relations := relations + [relation];
    }
    assert relations + [] == relations;
    return Ok(relations);
  }

  lemma NextRelation(whole: Result<seq<Relation>>, s: Bytes, relations: seq<Relation>)
    requires s != [] && ContinuesAll(whole, RelationsIn(s), relations)
    ensures match RelationAt(s)
            case Ok(t) => ContinuesAll(whole, RelationsIn(t.1), relations + [t.0])
            case Err(reason) => whole == Err(reason)
  {
    hide RelationAt;
    if RelationsIn(s).Ok? {
      var t := RelationAt(s).value;
      var rest := RelationsIn(t.1).value;
      assert relations + ([t.0] + rest) == (relations + [t.0]) + rest;
    }
  }

  method ReadSources(data: Bytes, strings: seq<Bytes>) returns (r: Result<map<Bytes, Node>>)
    ensures r == SourcesIn(strings, data, map[])
  {
    hide SourceAt;
    var reader := new Reader(data);
    var sources := map[];
    while reader.Remaining() > 0
      invariant reader.Valid() && fresh(reader)
      invariant SourcesIn(strings, data, map[]) == SourcesIn(strings, reader.Rest(), sources)
      decreases reader.Remaining()
    {
      var source :- ReadSource(reader, strings);
      if source.uri in sources { return Err("duplicate clangd include graph node"); }
      sources := sources[source.uri := source.node];
    }
    return Ok(sources);
  }

  method ReadCommand(data: Bytes, strings: seq<Bytes>) returns (r: Result<Command>)
    ensures r == CommandIn(strings, data)
  {
    hide StringAt, Count, StringsAt;
    var reader := new Reader(data);
    var directory :- reader.ReadString(strings);
    var count :- reader.ReadCount();
    var arguments :- ReadStrings(reader, strings, count);
    if reader.Remaining() > 0 { return Err("trailing clangd command bytes"); }
    return Ok(Command(directory, arguments));
  }

  method ReadChunk(reader: Reader, seen: set<Bytes>) returns (r: Result<(Bytes, Bytes)>)
    requires reader.Valid()
    modifies reader
    ensures reader.Valid() && Runs(Chunk(old(reader.Rest()), seen), r, reader.Rest())
  {
    hide Take, Word;
    var tag :- reader.TakeRaw(4);
    var size :- reader.U32();
    if tag in seen { return Err("duplicate clangd RIFF chunk"); }
    var body :- reader.TakeRaw(size);
    if size % 2 != 0 {
      var pad :- reader.TakeRaw(1);
      if pad != [0] { return Err("invalid clangd RIFF padding"); }
    }
    return Ok((tag, body));
  }

  /** `_chunks`: the header, then every chunk to the end, then the checks on the whole set. */
  method ReadChunks(raw: Bytes) returns (r: Result<map<Bytes, Bytes>>)
    ensures r == Chunks(raw)
  {
    hide Take, Word, Chunk, PutWord;
    var reader := new Reader(raw);
    var riff :- reader.TakeRaw(4);
    if riff != RIFF { return Err("not a RIFF file"); }
    var size :- reader.U32();
    if size != reader.Remaining() { return Err("invalid clangd RIFF size or type"); }
    var kind :- reader.TakeRaw(4);
    if kind != CDIX { return Err("invalid clangd RIFF size or type"); }
    var chunks := map[];
    ghost var body := reader.Rest();
    assert Container(raw) == Ok(body);
    while reader.Remaining() > 0
      invariant reader.Valid() && fresh(reader)
      invariant ChunkMap(body, map[]) == ChunkMap(reader.Rest(), chunks)
      decreases reader.Remaining()
    {
      var chunk :- ReadChunk(reader, chunks.Keys);
      chunks := chunks[chunk.0 := chunk.1];
    }
    return Checked(chunks);
  }

  /** `decode_shard`. */
  method DecodeShard(inflate: Inflater, raw: Bytes) returns (r: Result<Shard>)
    ensures r == Decoded(inflate, raw)
  {
    hide Chunks, Strings, SymbolsIn, RefsIn, RelationsIn, SourcesIn, CommandIn;
    var chunks :- ReadChunks(raw);
    var strings :- Strings(inflate, chunks[STRI]);
    var symbols :- ReadSymbols(chunks[SYMB], strings);
    var refs :- ReadRefs(chunks[REFS], strings);
    var relations :- ReadRelations(chunks[RELA]);
    var sources :- ReadSources(chunks[SRCS], strings);
    var command := None;
    if CMDL in chunks {
      var decoded :- ReadCommand(chunks[CMDL], strings);
      command := Some(decoded);
    }
    return Ok(Shard(symbols, refs, relations, sources, command));
  }
}
