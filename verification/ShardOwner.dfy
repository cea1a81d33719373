/** The fast reader that only wants the owner of a shard: it skips the records and must agree with the decoder. */
module ShardOwner {
  import opened Prelude
  import opened ShardBytes
  import opened ShardFormat
  import opened ShardDecoder

  const METADATA: set<Bytes> := {META, STRI, SRCS}
  const MAX_METADATA_CHUNK := 256 * 1024 * 1024
  const NO_DIGEST: Bytes := [0, 0, 0, 0, 0, 0, 0, 0]

  // ---- what the fast reader computes ----------------------------------------------------------

  function OwnerHeader(raw: Bytes): (r: Result<Bytes>) {
    if |raw| < 12 then Err("truncated clangd RIFF file")
    else if raw[..4] != RIFF || raw[8..12] != CDIX || WordOf(raw[4..8]) != |raw| - 8 then
      Err("invalid clangd RIFF size or type")
    else Ok(raw[12..])
  }

  /** One chunk: its name, its bytes when they are metadata, and what follows. */
  function OwnerChunk(s: Bytes, seen: set<Bytes>): (r: Result<((Bytes, Option<Bytes>), Bytes)>)
    ensures r.Ok? ==> |r.value.1| < |s| && r.value.0.0 !in seen && (r.value.0.1.Some? <==> r.value.0.0 in METADATA)
  {
    if |s| < 8 then Err("truncated clangd RIFF chunk header") else
    var tag, size := s[..4], WordOf(s[4..8]);
    var padded := size + size % 2;
    if tag !in ALLOWED then Err("unknown clangd RIFF chunk")
    else if tag in seen then Err("duplicate clangd RIFF chunk")
    else if padded > |s| - 8 then Err("truncated clangd RIFF chunk")
    else if tag in METADATA && size > MAX_METADATA_CHUNK then Err("clangd ownership metadata chunk exceeds 256 MiB")
    else if size % 2 == 1 && s[8 + size] != 0 then Err("invalid clangd RIFF padding")
    else Ok(((tag, if tag in METADATA then Some(s[8..8 + size]) else None), s[8 + padded..]))
  }

  /** The bytes of every metadata chunk that was seen are kept. */
  predicate Stored(chunks: map<Bytes, Bytes>, seen: set<Bytes>) {
    forall t :: t in METADATA && t in seen ==> t in chunks
  }

  function OwnerChunks(s: Bytes, chunks: map<Bytes, Bytes>, seen: set<Bytes>): (r: Result<(map<Bytes, Bytes>, set<Bytes>)>)
    requires Stored(chunks, seen)
    ensures r.Ok? ==> Stored(r.value.0, r.value.1)
    decreases |s|
  {
    if s == [] then Ok((chunks, seen)) else
    var t :- OwnerChunk(s, seen);
    OwnerChunks(t.1, if t.0.1.Some? then chunks[t.0.0 := t.0.1.value] else chunks, seen + {t.0.0})
  }

  function OwnersIn(strings: seq<Bytes>, s: Bytes, uris: set<Bytes>, own: seq<Bytes>): (r: Result<seq<Bytes>>)
    decreases |s|
  {
    if s == [] then Ok(own) else
    var flags :- OneByte(s);
    var uri :- StringAt(strings, flags.1);
    var digest :- Take(uri.1, 8);
    if uri.0 == [] || uri.0 in uris then Err("empty or duplicate clangd include graph URI") else
    var count :- Count(digest.1);
    var includes :- StringsAt(strings, count.0, count.1);
    OwnersIn(strings, includes.1, uris + {uri.0}, if digest.0 != NO_DIGEST then own + [uri.0] else own)
  }

  function OnlyOne(own: seq<Bytes>): (r: Result<Bytes>) {
    if |own| != 1 then Err("expected exactly one clangd shard own node") else Ok(own[0])
  }

  function OwnerOf(inflate: Inflater, raw: Bytes): (r: Result<Bytes>) {
    var body :- OwnerHeader(raw);
    var t :- OwnerChunks(body, map[], {});
    var (chunks, seen) := t;
    if !(REQUIRED <= seen) then Err("missing clangd BackgroundIndex shard chunk")
    else if chunks[META] != PutWord(VERSION, []) then Err("unsupported clangd index version (expected 20)") else
    var strings :- Strings(inflate, chunks[STRI]);
    var own :- OwnersIn(strings, chunks[SRCS], {}, []);
    OnlyOne(own)
  }

  // ---- the reader as it runs ------------------------------------------------------------------

  /** An unbuffered file: what is read moves the position, and a seek moves it without reading. */
  class Stream {
    const data: Bytes
    var pos: nat

    ghost predicate Valid()
      reads this
    {
      pos <= |data|
    }

    constructor (data: Bytes)
      ensures Valid() && this.data == data && pos == 0 && fresh(this)
    {
      this.data, pos := data, 0;
    }

    /** Up to so many bytes: fewer only at the end of the file. */
    method Read(size: nat) returns (raw: Bytes)
      requires Valid()
      modifies this
      ensures Valid() && pos == (if old(pos) + size <= |data| then old(pos) + size else |data|)
      ensures raw == data[old(pos)..pos]
    {
      var end := if pos + size <= |data| then pos + size else |data|;
      raw := data[pos..end];
      pos := end;
    }

    method Skip(size: nat)
      requires Valid() && pos + size <= |data|
      modifies this
      ensures Valid() && pos == old(pos) + size
    {
      pos := pos + size;
    }
  }

  lemma SliceOf(data: Bytes, pos: nat, i: nat, j: nat)
    requires pos <= |data| && i <= j <= |data| - pos
    ensures data[pos..][i..j] == data[pos + i..pos + j] && data[pos..][j..] == data[pos + j..]
  {
  }

  /** The sizes are checked before each read, so none of these reads comes up short. */
  method ReadOwnerChunk(stream: Stream, seen: set<Bytes>) returns (r: Result<(Bytes, Option<Bytes>)>)
    requires stream.Valid()
    modifies stream
    ensures stream.Valid()
    ensures Runs(OwnerChunk(old(stream.data[stream.pos..]), seen), r, stream.data[stream.pos..])
  {
    hide ALLOWED, METADATA, WordOf;
    ghost var s, start := stream.data[stream.pos..], stream.pos;
    if |stream.data| - stream.pos < 8 { return Err("truncated clangd RIFF chunk header"); }
    var head := stream.Read(8);
    var tag, size := head[..4], WordOf(head[4..8]);
    assert head == s[..8];
    assert tag == s[..4] && head[4..8] == s[4..8];
    if tag !in ALLOWED { return Err("unknown clangd RIFF chunk"); }
    if tag in seen { return Err("duplicate clangd RIFF chunk"); }
    if size + size % 2 > |stream.data| - stream.pos { return Err("truncated clangd RIFF chunk"); }
    var body := None;
    SliceOf(stream.data, start, 8, 8 + size);
    if tag in METADATA {
      if size > MAX_METADATA_CHUNK { return Err("clangd ownership metadata chunk exceeds 256 MiB"); }
      var raw := stream.Read(size);
      body := Some(raw);
    } else {
      stream.Skip(size);
    }
    if size % 2 == 1 {
      SliceOf(stream.data, start, 8 + size, 9 + size);
      var pad := stream.Read(1);
      assert pad[0] == s[8 + size];
      if pad != [0] { return Err("invalid clangd RIFF padding"); }
    }
    return Ok((tag, body));
  }

  method ReadOwners(data: Bytes, strings: seq<Bytes>) returns (r: Result<seq<Bytes>>)
    ensures r == OwnersIn(strings, data, {}, [])
  {
    hide OneByte, StringAt, Take, Count, StringsAt;
    var reader := new Reader(data);
    var uris, own := {}, [];
    while reader.Remaining() > 0
      invariant reader.Valid() && fresh(reader)
      invariant OwnersIn(strings, data, {}, []) == OwnersIn(strings, reader.Rest(), uris, own)
      decreases reader.Remaining()
    {
      var _ :- reader.ReadByte();
      var uri :- reader.ReadString(strings);
      var digest :- reader.TakeRaw(8);
      if uri == [] || uri in uris { return Err("empty or duplicate clangd include graph URI"); }
      uris := uris + {uri};
      var count :- reader.ReadCount();
      var _ :- ReadStrings(reader, strings, count);
      if digest != NO_DIGEST { own := own + [uri]; }
    }
    return Ok(own);
  }

  /** `read_owner`, for a file that does not change while it is read. */
  method ReadOwner(inflate: Inflater, raw: Bytes) returns (r: Result<Bytes>)
    ensures r == OwnerOf(inflate, raw)
  {
    hide OwnerChunk, Strings, OwnersIn, PutWord, ALLOWED;
    var stream := new Stream(raw);
    var header := stream.Read(12);
    if |header| != 12 { return Err("truncated clangd RIFF file"); }
    assert header[..4] == raw[..4] && header[4..8] == raw[4..8] && header[8..] == raw[8..12];
    if header[..4] != RIFF || header[8..] != CDIX || WordOf(header[4..8]) != |raw| - 8 {
      return Err("invalid clangd RIFF size or type");
    }
    var chunks, seen := map[], {};
    ghost var body := raw[12..];
    while stream.pos < |raw|
      invariant stream.Valid() && fresh(stream) && stream.data == raw
      invariant Stored(chunks, seen)
      invariant OwnerChunks(body, map[], {}) == OwnerChunks(raw[stream.pos..], chunks, seen)
      decreases |raw| - stream.pos
    {
      var chunk :- ReadOwnerChunk(stream, seen);
      var (tag, content) := chunk;
      seen := seen + {tag};
      if content.Some? { chunks := chunks[tag := content.value]; }
    }
    if !(REQUIRED <= seen) { return Err("missing clangd BackgroundIndex shard chunk"); }
    if chunks[META] != PutWord(VERSION, []) { return Err("unsupported clangd index version (expected 20)"); }
    var strings :- Strings(inflate, chunks[STRI]);
    var own :- ReadOwners(chunks[SRCS], strings);
    return OnlyOne(own);
  }
}
