/** The written form of a whole shard file, and the round trip through it. */
module ShardRoundTrip {
  import opened Prelude
  import opened ShardBytes
  import opened ShardFormat
  import opened ShardWriting

  // ---- the string table -----------------------------------------------------------------------

  predicate ZeroFree(text: Bytes) {
    forall i :: 0 <= i < |text| ==> text[i] != 0
  }

  /** Every string with a zero byte behind it. */
  function Table(strings: seq<Bytes>): (r: Bytes)
    ensures strings != [] ==> r != [] && Last(r) == 0
  {
    if strings == [] then [] else strings[0] + [0] + Table(strings[1..])
  }

  lemma {:induction false} SplitFirst(text: Bytes, rest: Bytes)
    requires ZeroFree(text)
    ensures SplitZero(text + [0] + rest) == [text] + SplitZero(rest)
  {
    var s := text + [0] + rest;
    if text == [] {
      assert s[1..] == rest;
    } else {
      SplitFirst(text[1..], rest);
      assert s[1..] == text[1..] + [0] + rest;
      assert [text[0]] + text[1..] == text;
    }
  }

  lemma {:induction false} SplitOnly(text: Bytes)
    requires ZeroFree(text)
    ensures SplitZero(text) == [text]
  {
    if text != [] {
      SplitOnly(text[1..]);
      assert [text[0]] + text[1..] == text;
    }
  }

  lemma {:induction false} SplitTable(strings: seq<Bytes>)
    requires strings != [] && forall t :: t in strings ==> ZeroFree(t)
    ensures SplitZero(Init(Table(strings))) == strings
  {
    hide ZeroFree, SplitZero;
    if |strings| == 1 {
      assert Table(strings[1..]) == [];
      assert Init(Table(strings)) == strings[0];
      SplitOnly(strings[0]);
    } else {
      SplitTable(strings[1..]);
      assert Init(Table(strings)) == strings[0] + [0] + Init(Table(strings[1..]));
      SplitFirst(strings[0], Init(Table(strings[1..])));
    }
  }

  /** The table is stored as it is, or deflated. */
  datatype Packing = Plain | Deflated(packed: Bytes)

  predicate Packs(inflate: Inflater, packing: Packing, strings: seq<Bytes>) {
    && strings != [] && |strings| <= WORD && (forall t :: t in strings ==> ZeroFree(t))
    && (packing.Deflated? ==>
          |Table(strings)| <= MAX_STRING_TABLE
          && inflate(packing.packed, |Table(strings)| + 1) == Some(Inflated(Table(strings), true)))
  }

  function PutTable(inflate: Inflater, packing: Packing, strings: seq<Bytes>): Bytes
    requires Packs(inflate, packing, strings)
  {
    match packing
    case Plain => PutWord(0, Table(strings))
    case Deflated(packed) => PutWord(|Table(strings)|, packed)
  }

  lemma TableRoundTrip(inflate: Inflater, packing: Packing, strings: seq<Bytes>)
    requires Packs(inflate, packing, strings)
    ensures Strings(inflate, PutTable(inflate, packing, strings)) == Ok(strings)
  {
    hide Word, PutWord, SplitZero;
    var table := Table(strings);
    SplitTable(strings);
    match packing {
      case Plain => WordRoundTrip(0, table);
      case Deflated(packed) => WordRoundTrip(|table|, packed);
    }
  }

  // ---- chunks ---------------------------------------------------------------------------------

  function Padding(size: nat): Bytes {
    if size % 2 == 0 then [] else [0]
  }

  function PutChunk(tag: Bytes, body: Bytes, tail: Bytes): Bytes
    requires |body| < WORD
  {
    PutRaw(tag, PutWord(|body|, PutRaw(body, PutRaw(Padding(|body|), tail))))
  }

  /** A chunk survives, with the byte that pads an odd length. */
  lemma ChunkRoundTrip(tag: Bytes, body: Bytes, tail: Bytes, seen: set<Bytes>)
    requires |tag| == 4 && |body| < WORD && tag !in seen
    ensures Chunk(PutChunk(tag, body, tail), seen) == Ok(((tag, body), tail))
  {
    hide Take, Word, PutRaw, PutWord;
    var padded := PutRaw(Padding(|body|), tail);
    RawRoundTrip(Padding(|body|), tail);
    if |body| % 2 == 0 { assert padded == tail by { EmptyRaw(tail); } }
    RawRoundTrip(body, padded);
    WordRoundTrip(|body|, PutRaw(body, padded));
    RawRoundTrip(tag, PutWord(|body|, PutRaw(body, padded)));
  }

  lemma EmptyRaw(tail: Bytes)
    ensures PutRaw([], tail) == tail
  {
  }

  /** These chunks, each of them short enough for its 32-bit size. */
  predicate Chunked(order: seq<Bytes>, chunks: map<Bytes, Bytes>) {
    forall t :: t in order ==> |t| == 4 && t in chunks && |chunks[t]| < WORD
  }

  function PutChunks(order: seq<Bytes>, chunks: map<Bytes, Bytes>): Bytes
    requires Chunked(order, chunks)
  {
    if order == [] then [] else PutChunk(order[0], chunks[order[0]], PutChunks(order[1..], chunks))
  }

  /** What is known after reading the chunks in this order. */
  ghost predicate ReadSoFar(before: map<Bytes, Bytes>, order: seq<Bytes>, chunks: map<Bytes, Bytes>, after: map<Bytes, Bytes>) {
    && (forall t :: t in after <==> t in before || t in order)
    && (forall t :: t in order ==> t in chunks && t in after && after[t] == chunks[t])
    && (forall t :: t in before && t !in order ==> after[t] == before[t])
  }

  lemma {:induction false} ChunksRoundTrip(order: seq<Bytes>, chunks: map<Bytes, Bytes>, before: map<Bytes, Bytes>)
    requires Chunked(order, chunks) && Distinct(order) && forall t :: t in order ==> t !in before
    ensures ChunkMap(PutChunks(order, chunks), before).Ok?
    ensures ReadSoFar(before, order, chunks, ChunkMap(PutChunks(order, chunks), before).value)
    decreases order
  {
    hide Chunk, PutChunk;
    if order != [] {
      var tag, rest := order[0], PutChunks(order[1..], chunks);
      ChunkRoundTrip(tag, chunks[tag], rest, before.Keys);
      assert Chunk(PutChunk(tag, chunks[tag], rest), before.Keys).Ok?;
      ChunksRoundTrip(order[1..], chunks, before[tag := chunks[tag]]);
      ReadOne(before, order, chunks, ChunkMap(rest, before[tag := chunks[tag]]).value);
    }
  }

  lemma ReadOne(before: map<Bytes, Bytes>, order: seq<Bytes>, chunks: map<Bytes, Bytes>, after: map<Bytes, Bytes>)
    requires order != [] && Distinct(order) && order[0] in chunks
    requires ReadSoFar(before[order[0] := chunks[order[0]]], order[1..], chunks, after)
    ensures ReadSoFar(before, order, chunks, after)
  {
    assert order == [order[0]] + order[1..];
    assert order[0] !in order[1..];
  }

  /** The order names every chunk once. */
  ghost predicate Orders(order: seq<Bytes>, chunks: map<Bytes, Bytes>) {
    Distinct(order) && forall t :: t in order <==> t in chunks
  }

  function PutFile(order: seq<Bytes>, chunks: map<Bytes, Bytes>): Bytes
    requires Chunked(order, chunks) && |PutChunks(order, chunks)| + 4 < WORD
  {
    var body := PutChunks(order, chunks);
    PutRaw(RIFF, PutWord(|body| + 4, PutRaw(CDIX, body)))
  }

  lemma FileRoundTrip(order: seq<Bytes>, chunks: map<Bytes, Bytes>)
    requires Chunked(order, chunks) && |PutChunks(order, chunks)| + 4 < WORD
    requires Orders(order, chunks) && REQUIRED <= chunks.Keys <= ALLOWED && chunks[META] == PutWord(VERSION, [])
    ensures Chunks(PutFile(order, chunks)) == Ok(chunks)
  {
    hide Take, Word, PutRaw, PutWord, ChunkMap, PutChunks;
    var body := PutChunks(order, chunks);
    RawRoundTrip(CDIX, body);
    WordRoundTrip(|body| + 4, PutRaw(CDIX, body));
    RawRoundTrip(RIFF, PutWord(|body| + 4, PutRaw(CDIX, body)));
    ChunksRoundTrip(order, chunks, map[]);
    assert ChunkMap(body, map[]).value == chunks;
  }

  // ---- the shard ------------------------------------------------------------------------------

  /** The choices a writer has: the table, its packing, the grouping of references, and both orders. */
  datatype Layout = Layout(strings: seq<Bytes>, packing: Packing, groups: seq<Group>, sources: seq<Source>, order: seq<Bytes>)

  /** The list holds every node of the include graph once. */
  predicate Lists(ss: seq<Source>, sources: map<Bytes, Node>) {
    && NewSources(map[], ss)
    && (forall i :: 0 <= i < |ss| ==> ss[i].uri in sources && sources[ss[i].uri] == ss[i].node)
    && forall u :: u in sources ==> exists i :: 0 <= i < |ss| && ss[i].uri == u
  }

  lemma {:induction false} AddedSources(before: map<Bytes, Node>, ss: seq<Source>, u: Bytes)
    requires NewSources(before, ss)
    ensures u in AddSources(before, ss) <==> u in before || exists i :: 0 <= i < |ss| && ss[i].uri == u
    ensures u in before ==> AddSources(before, ss)[u] == before[u]
    ensures forall i :: 0 <= i < |ss| && ss[i].uri == u ==> AddSources(before, ss)[u] == ss[i].node
    decreases |ss|
  {
    if ss != [] {
      var next := before[ss[0].uri := ss[0].node];
      AddedSources(next, ss[1..], u);
      assert forall i :: 0 < i < |ss| ==> ss[i] == ss[1..][i - 1];
    }
  }

  lemma ListedSources(ss: seq<Source>, sources: map<Bytes, Node>)
    requires Lists(ss, sources)
    ensures AddSources(map[], ss) == sources
  {
    forall u ensures (u in AddSources(map[], ss) <==> u in sources) && (u in sources ==> AddSources(map[], ss)[u] == sources[u]) {
      AddedSources(map[], ss, u);
    }
  }

  predicate RecordsFit(shard: Shard, layout: Layout) {
    && (forall s :: s in shard.symbols ==> SymbolFits(layout.strings, s))
    && (forall g :: g in layout.groups ==> GroupFits(layout.strings, g)) && FlatAll(layout.groups) == shard.refs
    && (forall r :: r in shard.relations ==> RelationFits(r))
    && (forall s :: s in layout.sources ==> SourceFits(layout.strings, s)) && Lists(layout.sources, shard.sources)
    && (shard.command.Some? ==> CommandFits(layout.strings, shard.command.value))
  }

  function Bodies(inflate: Inflater, shard: Shard, layout: Layout): (r: map<Bytes, Bytes>)
    requires Packs(inflate, layout.packing, layout.strings) && RecordsFit(shard, layout)
  {
    var required := map[
      META := PutWord(VERSION, []),
      STRI := PutTable(inflate, layout.packing, layout.strings),
      SYMB := PutSymbols(layout.strings, shard.symbols),
      REFS := PutGroups(layout.strings, layout.groups),
      RELA := PutRelations(shard.relations),
      SRCS := PutSources(layout.strings, layout.sources)];
    if shard.command.None? then required else required[CMDL := PutCommand(layout.strings, shard.command.value)]
  }

  /** The shard can be written in this layout: strings found, numbers of 32 bits, sizes of 32 bits. */
  ghost predicate Writable(inflate: Inflater, shard: Shard, layout: Layout) {
    && Packs(inflate, layout.packing, layout.strings) && RecordsFit(shard, layout)
    && Orders(layout.order, Bodies(inflate, shard, layout)) && Chunked(layout.order, Bodies(inflate, shard, layout))
    && |PutChunks(layout.order, Bodies(inflate, shard, layout))| + 4 < WORD
  }

  function Encode(inflate: Inflater, shard: Shard, layout: Layout): Bytes
    requires Writable(inflate, shard, layout)
  {
    PutFile(layout.order, Bodies(inflate, shard, layout))
  }

  lemma BodiesNamed(inflate: Inflater, shard: Shard, layout: Layout)
    requires Packs(inflate, layout.packing, layout.strings) && RecordsFit(shard, layout)
    ensures var b := Bodies(inflate, shard, layout);
            REQUIRED <= b.Keys <= ALLOWED && b[META] == PutWord(VERSION, [])
            && b[STRI] == PutTable(inflate, layout.packing, layout.strings)
            && b[SYMB] == PutSymbols(layout.strings, shard.symbols) && b[REFS] == PutGroups(layout.strings, layout.groups)
            && b[RELA] == PutRelations(shard.relations) && b[SRCS] == PutSources(layout.strings, layout.sources)
            && (CMDL in b <==> shard.command.Some?)
            && (shard.command.Some? ==> b[CMDL] == PutCommand(layout.strings, shard.command.value))
  {
    hide Packs, RecordsFit, PutTable, PutSymbols, PutGroups, PutRelations, PutSources, PutCommand, PutWord;
    assert META[0] != STRI[0] && META[0] != SYMB[0] && META[0] != REFS[0] && META[0] != RELA[0] && META[0] != SRCS[0];
    assert STRI[1] != SYMB[1] && STRI[1] != SRCS[1] && SYMB[1] != SRCS[1] && STRI[0] != REFS[0] && STRI[0] != RELA[0];
    assert REFS[2] != RELA[2] && SYMB[0] != REFS[0] && SYMB[0] != RELA[0] && SRCS[0] != REFS[0] && SRCS[0] != RELA[0];
    assert CMDL[0] !in {META[0], STRI[0], REFS[0]};
    assert CMDL[0] != RELA[0] && CMDL[0] != SYMB[0] && CMDL[0] != SRCS[0];
  }

  lemma RecordsRoundTrip(inflate: Inflater, shard: Shard, layout: Layout)
    requires Packs(inflate, layout.packing, layout.strings) && RecordsFit(shard, layout)
    ensures REQUIRED <= Bodies(inflate, shard, layout).Keys
    ensures Records(layout.strings, Bodies(inflate, shard, layout)) == Ok(shard)
  {
    hide Bodies, ALLOWED, SymbolsIn, RefsIn, RelationsIn, SourcesIn, CommandIn;
    hide PutSymbols, PutGroups, PutRelations, PutSources, PutCommand, PutWord, PutTable;
    hide SymbolFits, GroupFits, RelationFits, SourceFits, CommandFits, Lists, FlatAll, ZeroFree, Table, NewSources;
    BodiesNamed(inflate, shard, layout);
    SymbolsRoundTrip(layout.strings, shard.symbols);
    RefsRoundTrip(layout.strings, layout.groups);
    RelationsRoundTrip(shard.relations);
    assert NewSources(map[], layout.sources) by { ListsNew(layout.sources, shard.sources); }
    SourcesRoundTrip(layout.strings, layout.sources, map[]);
    ListedSources(layout.sources, shard.sources);
    if shard.command.Some? { CommandRoundTrip(layout.strings, shard.command.value); }
  }

  lemma ListsNew(ss: seq<Source>, sources: map<Bytes, Node>)
    requires Lists(ss, sources)
    ensures NewSources(map[], ss)
  {
  }

  /** Decoding the written form of a shard gives the shard back, whatever choices the writer made. */
  lemma ShardRoundTrips(inflate: Inflater, shard: Shard, layout: Layout)
    requires Writable(inflate, shard, layout)
    ensures Decoded(inflate, Encode(inflate, shard, layout)) == Ok(shard)
  {
    hide Bodies, Packs, RecordsFit, Orders, Chunked, PutChunks, Chunks, Strings, Records, PutFile, PutTable, PutWord;
    BodiesNamed(inflate, shard, layout);
    FileRoundTrip(layout.order, Bodies(inflate, shard, layout));
    TableRoundTrip(inflate, layout.packing, layout.strings);
    RecordsRoundTrip(inflate, shard, layout);
  }

  /** Two shards written to the same bytes are the same shard. */
  lemma EncodingIsInjective(inflate: Inflater, a: Shard, la: Layout, b: Shard, lb: Layout)
    requires Writable(inflate, a, la) && Writable(inflate, b, lb)
    requires Encode(inflate, a, la) == Encode(inflate, b, lb)
    ensures a == b
  {
    hide Writable, Encode, Decoded;
    ShardRoundTrips(inflate, a, la);
    ShardRoundTrips(inflate, b, lb);
  }
}
