/** The fast reader and the full decoder: they name the same owner, and exactly when the fast one succeeds. */
module ShardOwnerAgrees {
  import opened Prelude
  import opened ShardBytes
  import opened ShardFormat
  import opened ShardOwner
  import opened ShardWriting
  import Writing = ShardRoundTrip

  // ---- chunks ---------------------------------------------------------------------------------

  predicate Small(chunks: map<Bytes, Bytes>) {
    forall t :: t in chunks && t in METADATA ==> |chunks[t]| <= MAX_METADATA_CHUNK
  }

  /** The fast reader holds exactly the metadata among the chunks. */
  ghost predicate Restricts(kept: map<Bytes, Bytes>, chunks: map<Bytes, Bytes>) {
    && (forall t :: t in kept <==> t in chunks && t in METADATA)
    && forall t :: t in kept ==> kept[t] == chunks[t]
  }

  lemma HeadersAgree(raw: Bytes)
    requires Container(raw).Ok?
    ensures OwnerHeader(raw) == Container(raw)
  {
    hide RIFF, CDIX, WordOf;
    assert raw[4..][..4] == raw[4..8] && raw[4..][4..] == raw[8..];
    assert raw[8..][..4] == raw[8..12] && raw[8..][4..] == raw[12..];
  }

  lemma OneChunkAgrees(s: Bytes, seen: set<Bytes>)
    requires Chunk(s, seen).Ok? && Chunk(s, seen).value.0.0 in ALLOWED
    ensures var ((tag, body), rest) := Chunk(s, seen).value;
            if tag in METADATA && |body| > MAX_METADATA_CHUNK then OwnerChunk(s, seen).Err?
            else OwnerChunk(s, seen) == Ok(((tag, if tag in METADATA then Some(body) else None), rest))
  {
    hide ALLOWED, METADATA, WordOf;
    var size := WordOf(s[4..8]);
    assert s[4..][..4] == s[4..8] && s[4..][4..] == s[8..];
    assert s[8..][..size] == s[8..8 + size] && s[8..][size..] == s[8 + size..];
    if size % 2 == 1 { assert s[8 + size..][..1] == [s[8 + size]] && s[8 + size..][1..] == s[9 + size..]; }
  }

  lemma {:induction false} ChunkMapGrows(s: Bytes, chunks: map<Bytes, Bytes>, t: Bytes)
    requires ChunkMap(s, chunks).Ok? && t in chunks
    ensures t in ChunkMap(s, chunks).value && ChunkMap(s, chunks).value[t] == chunks[t]
    decreases |s|
  {
    hide Chunk;
    if s != [] {
      var c := Chunk(s, chunks.Keys).value;
      ChunkMapGrows(c.1, chunks[c.0.0 := c.0.1], t);
    }
  }

  predicate ChunksAgreeOn(r: Result<(map<Bytes, Bytes>, set<Bytes>)>, all: map<Bytes, Bytes>) {
    if Small(all) then r.Ok? && (forall t :: t in r.value.0 ==> t in all && t in METADATA && r.value.0[t] == all[t])
                       && (forall t :: t in all && t in METADATA ==> t in r.value.0) && r.value.1 == all.Keys
    else r.Err?
  }

  lemma {:induction false} ChunksAgree(s: Bytes, chunks: map<Bytes, Bytes>, kept: map<Bytes, Bytes>)
    requires ChunkMap(s, chunks).Ok? && ChunkMap(s, chunks).value.Keys <= ALLOWED
    requires Small(chunks) && Restricts(kept, chunks)
    ensures Stored(kept, chunks.Keys)
    ensures ChunksAgreeOn(OwnerChunks(s, kept, chunks.Keys), ChunkMap(s, chunks).value)
    decreases |s|
  {
    hide Chunk, OwnerChunk, ALLOWED, METADATA;
    if s != [] {
      var ((tag, body), rest) := Chunk(s, chunks.Keys).value;
      var all, next := ChunkMap(s, chunks).value, chunks[tag := body];
      ChunkMapGrows(rest, next, tag);
      OneChunkAgrees(s, chunks.Keys);
      if tag in METADATA && |body| > MAX_METADATA_CHUNK {
        assert !Small(all);
      } else {
        var kept' := if tag in METADATA then kept[tag := body] else kept;
        assert Restricts(kept', next) && Small(next);
        assert next.Keys == chunks.Keys + {tag};
        ChunksAgree(rest, next, kept');
      }
    }
  }

  // ---- sources --------------------------------------------------------------------------------

  /** The nodes with a digest: the files this shard itself describes. */
  function OwnUris(sources: map<Bytes, Node>): set<Bytes> {
    set u | u in sources && sources[u].digest != NO_DIGEST
  }

  /** These are the own nodes, each once. */
  ghost predicate Owns(own: seq<Bytes>, sources: map<Bytes, Node>) {
    Distinct(own) && forall u :: u in own <==> u in OwnUris(sources)
  }

  lemma {:induction false} SourcesGrow(strings: seq<Bytes>, s: Bytes, sources: map<Bytes, Node>, u: Bytes)
    requires SourcesIn(strings, s, sources).Ok? && u in sources
    ensures u in SourcesIn(strings, s, sources).value
    decreases |s|
  {
    hide SourceAt;
    if s != [] {
      var t := SourceAt(strings, s).value;
      SourcesGrow(strings, t.1, sources[t.0.uri := t.0.node], u);
    }
  }

  lemma OwnsNext(own: seq<Bytes>, sources: map<Bytes, Node>, uri: Bytes, node: Node)
    requires Owns(own, sources) && uri !in sources
    ensures Owns(if node.digest != NO_DIGEST then own + [uri] else own, sources[uri := node])
  {
    var next := sources[uri := node];
    assert forall u :: u in OwnUris(next) <==> u in OwnUris(sources) || (u == uri && node.digest != NO_DIGEST);
    DistinctSnoc(own, uri);
  }

  /** One node is read alike by both, up to the fast reader's refusal of an empty URI. */
  lemma OneSourceAgrees(strings: seq<Bytes>, s: Bytes, uris: set<Bytes>, own: seq<Bytes>)
    requires s != [] && SourceAt(strings, s).Ok?
    ensures var (source, rest) := SourceAt(strings, s).value;
            OwnersIn(strings, s, uris, own) ==
              if source.uri == [] || source.uri in uris then Err("empty or duplicate clangd include graph URI")
              else OwnersIn(strings, rest, uris + {source.uri}, if source.node.digest != NO_DIGEST then own + [source.uri] else own)
  {
    hide StringAt, StringsAt, Take, Count;
  }

  lemma {:induction false} SourcesAgree(strings: seq<Bytes>, s: Bytes, sources: map<Bytes, Node>, own: seq<Bytes>)
    requires SourcesIn(strings, s, sources).Ok? && [] !in sources && Owns(own, sources)
    ensures OwnersIn(strings, s, sources.Keys, own).Ok? <==> [] !in SourcesIn(strings, s, sources).value
    ensures OwnersIn(strings, s, sources.Keys, own).Ok? ==>
              Owns(OwnersIn(strings, s, sources.Keys, own).value, SourcesIn(strings, s, sources).value)
    decreases |s|
  {
    hide SourceAt, Owns, OwnersIn;
    if s == [] {
      NoSourceLeft(strings, sources.Keys, own);
    } else {
      var (source, rest) := SourceAt(strings, s).value;
      var next := sources[source.uri := source.node];
      OneSourceAgrees(strings, s, sources.Keys, own);
      if source.uri == [] {
        SourcesGrow(strings, rest, next, []);
      } else {
        OwnsNext(own, sources, source.uri, source.node);
        assert next.Keys == sources.Keys + {source.uri};
        SourcesAgree(strings, rest, next, if source.node.digest != NO_DIGEST then own + [source.uri] else own);
      }
    }
  }

  lemma NoSourceLeft(strings: seq<Bytes>, uris: set<Bytes>, own: seq<Bytes>)
    ensures OwnersIn(strings, [], uris, own) == Ok(own)
  {
  }

  lemma {:induction false} DistinctCounts(own: seq<Bytes>)
    requires Distinct(own)
    ensures |set u | u in own| == |own|
  {
    if own == [] {
      assert (set u | u in own) == {};
    } else {
      DistinctCounts(Init(own));
      assert own == Init(own) + [Last(own)];
      assert (set u | u in own) == (set u | u in Init(own)) + {Last(own)};
      assert Last(own) !in Init(own);
    }
  }

  lemma OnlyOneAgrees(own: seq<Bytes>, sources: map<Bytes, Node>)
    requires Owns(own, sources)
    ensures OnlyOne(own).Ok? <==> |OwnUris(sources)| == 1
    ensures OnlyOne(own).Ok? ==> OwnUris(sources) == {OnlyOne(own).value}
  {
    DistinctCounts(own);
    assert (set u | u in own) == OwnUris(sources);
    if |own| == 1 { assert forall u :: u in own <==> u == own[0]; }
  }

  // ---- whole files ----------------------------------------------------------------------------

  /** When the full decoder accepts the bytes, the fast reader accepts them exactly when there is one own node,
      no URI is empty and the metadata chunks are within its limit; and then it names that node. */
  lemma OwnerAgrees(inflate: Inflater, raw: Bytes)
    requires Decoded(inflate, raw).Ok?
    ensures var sources := Decoded(inflate, raw).value.sources;
            && (OwnerOf(inflate, raw).Ok? <==> |OwnUris(sources)| == 1 && [] !in sources && Small(Chunks(raw).value))
            && (OwnerOf(inflate, raw).Ok? ==> OwnUris(sources) == {OwnerOf(inflate, raw).value})
  {
    hide Strings, Container, OwnerHeader, ChunkMap, OwnerChunks, SourcesIn, SymbolsIn, RefsIn, RelationsIn,
         OptionalCommand, OwnersIn, PutWord, OnlyOne, OwnUris, Small;
    HeadersAgree(raw);
    var body := Container(raw).value;
    var chunks := Chunks(raw).value;
    AllChunksAgree(body);
    if Small(chunks) {
      var kept := OwnerChunks(body, map[], {}).value.0;
      assert kept[META] == chunks[META] && kept[STRI] == chunks[STRI] && kept[SRCS] == chunks[SRCS];
      var strings := Strings(inflate, chunks[STRI]).value;
      AllSourcesAgree(strings, chunks[SRCS]);
      if OwnersIn(strings, chunks[SRCS], {}, []).Ok? {
        OnlyOneAgrees(OwnersIn(strings, chunks[SRCS], {}, []).value, SourcesIn(strings, chunks[SRCS], map[]).value);
      }
    }
  }

  lemma AllChunksAgree(body: Bytes)
    requires ChunkMap(body, map[]).Ok? && ChunkMap(body, map[]).value.Keys <= ALLOWED
    ensures ChunksAgreeOn(OwnerChunks(body, map[], {}), ChunkMap(body, map[]).value)
  {
    var none: map<Bytes, Bytes> := map[];
    assert none.Keys == {};
    ChunksAgree(body, none, none);
  }

  lemma AllSourcesAgree(strings: seq<Bytes>, s: Bytes)
    requires SourcesIn(strings, s, map[]).Ok?
    ensures OwnersIn(strings, s, {}, []).Ok? <==> [] !in SourcesIn(strings, s, map[]).value
    ensures OwnersIn(strings, s, {}, []).Ok? ==> Owns(OwnersIn(strings, s, {}, []).value, SourcesIn(strings, s, map[]).value)
  {
    var none: map<Bytes, Node> := map[];
    assert none.Keys == {} && Owns([], none);
    SourcesAgree(strings, s, none, []);
  }

  // ---- a shard that only the decoder reads ----------------------------------------------------

  const ONE_DIGEST: Bytes := [1, 0, 0, 0, 0, 0, 0, 0]

  /** A shard of one file whose URI is empty. */
  function Nameless(): Shard {
    Shard([], [], [], map[[] := Node(0, ONE_DIGEST, [])], None)
  }

  function NamelessLayout(): Writing.Layout {
    Writing.Layout([[]], Writing.Plain, [], [Source([], Node(0, ONE_DIGEST, []))], [META, STRI, SYMB, REFS, RELA, SRCS])
  }

  lemma NamelessFits(inflate: Inflater)
    ensures Writing.Packs(inflate, Writing.Plain, [[]]) && Writing.RecordsFit(Nameless(), NamelessLayout())
  {
    assert NamelessLayout().sources[0].uri == [];
  }

  lemma NamelessSizes(inflate: Inflater)
    ensures Writing.Packs(inflate, Writing.Plain, [[]]) && Writing.RecordsFit(Nameless(), NamelessLayout())
    ensures var b := Writing.Bodies(inflate, Nameless(), NamelessLayout());
            b.Keys == REQUIRED && forall t :: t in b ==> |b[t]| < 100
  {
    NamelessFits(inflate);
  }

  lemma TagsApart(order: seq<Bytes>)
    requires order == [META, STRI, SYMB, REFS, RELA, SRCS]
    ensures Distinct(order) && forall t :: t in order <==> t in REQUIRED
  {
    assert META[0] !in {STRI[0], REFS[0]} && META[0] != RELA[0] && META[0] != SYMB[0] && META[0] != SRCS[0];
    assert STRI[1] != SYMB[1] && STRI[1] != SRCS[1] && SYMB[1] != SRCS[1] && STRI[0] != REFS[0] && STRI[0] != RELA[0];
    assert REFS[2] != RELA[2] && SYMB[0] != REFS[0] && SYMB[0] != RELA[0] && SRCS[0] != REFS[0] && SRCS[0] != RELA[0];
  }

  lemma {:induction false} SmallChunks(order: seq<Bytes>, chunks: map<Bytes, Bytes>)
    requires forall t :: t in order ==> |t| == 4 && t in chunks && |chunks[t]| < 100
    ensures Writing.Chunked(order, chunks) && |Writing.PutChunks(order, chunks)| <= 200 * |order|
  {
    if order != [] {
      assert order[0] in order;
      SmallChunks(order[1..], chunks);
    }
  }

  lemma NamelessIsWritable(inflate: Inflater)
    ensures Writing.Writable(inflate, Nameless(), NamelessLayout())
  {
    hide Writing.Bodies, Writing.PutChunks, Writing.Packs, Writing.RecordsFit, Nameless, Distinct, REQUIRED;
    NamelessSizes(inflate);
    var order := NamelessLayout().order;
    TagsApart(order);
    FourBytes();
    SmallChunks(order, Writing.Bodies(inflate, Nameless(), NamelessLayout()));
  }

  lemma FourBytes()
    ensures forall t :: t in REQUIRED ==> |t| == 4
  {
  }

  /** The decoder reads the written shard back; the fast reader refuses it for the empty URI. */
  lemma EmptyUriIsRefused(inflate: Inflater)
    ensures Writing.Writable(inflate, Nameless(), NamelessLayout())
    ensures var raw := Writing.Encode(inflate, Nameless(), NamelessLayout());
            Decoded(inflate, raw) == Ok(Nameless()) && OwnerOf(inflate, raw).Err?
  {
    hide Decoded, OwnerOf, Writing.Encode, Writing.Writable;
    NamelessIsWritable(inflate);
    Writing.ShardRoundTrips(inflate, Nameless(), NamelessLayout());
    OwnerAgrees(inflate, Writing.Encode(inflate, Nameless(), NamelessLayout()));
    assert [] in Nameless().sources;
  }
}
