/** The records of a clangd index shard, version 20, and what each chunk of bytes means. */
module ShardFormat {
  import opened Prelude
  import opened ShardBytes

  datatype Location = Location(uri: Bytes, startLine: nat, startColumn: nat, endLine: nat, endColumn: nat)

  datatype Header = Header(header: Bytes, references: nat, directives: nat)

  datatype Naming = Naming(id: Bytes, kind: Byte, language: Byte, name: Bytes, scope: Bytes, arguments: Bytes)

  datatype Uses = Uses(definition: Location, declaration: Location, references: nat, flags: Byte)

  datatype Texts = Texts(signature: Bytes, suffix: Bytes, documentation: Bytes, returnType: Bytes, typeName: Bytes)

  datatype Symbol = Symbol(naming: Naming, uses: Uses, texts: Texts, headers: seq<Header>)

  /** A reference as it is stored below its symbol. */
  datatype Use = Use(kind: Byte, location: Location, container: Bytes)

  datatype Group = Group(symbol: Bytes, uses: seq<Use>)

  /** A reference as it is decoded: flat, naming its symbol. */
  datatype Ref = Ref(symbol: Bytes, use: Use)

  datatype Relation = Relation(subject: Bytes, relation: Byte, object': Bytes)

  datatype Node = Node(flags: Byte, digest: Bytes, includes: seq<Bytes>)

  datatype Source = Source(uri: Bytes, node: Node)

  datatype Command = Command(directory: Bytes, arguments: seq<Bytes>)

  datatype Shard = Shard(symbols: seq<Symbol>, refs: seq<Ref>, relations: seq<Relation>,
                         sources: map<Bytes, Node>, command: Option<Command>)

  const VERSION := 20
  const MAX_STRING_TABLE := 256 * 1024 * 1024

  // ---- chunk names ----------------------------------------------------------------------------

  const RIFF: Bytes := [0x52, 0x49, 0x46, 0x46]
  const CDIX: Bytes := [0x43, 0x64, 0x49, 0x78]
  const META: Bytes := [0x6d, 0x65, 0x74, 0x61]
  const STRI: Bytes := [0x73, 0x74, 0x72, 0x69]
  const SYMB: Bytes := [0x73, 0x79, 0x6d, 0x62]
  const REFS: Bytes := [0x72, 0x65, 0x66, 0x73]
  const RELA: Bytes := [0x72, 0x65, 0x6c, 0x61]
  const SRCS: Bytes := [0x73, 0x72, 0x63, 0x73]
  const CMDL: Bytes := [0x63, 0x6d, 0x64, 0x6c]

  const REQUIRED: set<Bytes> := {META, STRI, SYMB, REFS, RELA, SRCS}
  const ALLOWED: set<Bytes> := REQUIRED + {CMDL}

  // ---- the RIFF container ---------------------------------------------------------------------

  /** One chunk: its name, its bytes and, after an odd number of them, one zero byte. */
  function Chunk(s: Bytes, seen: set<Bytes>): (r: Result<((Bytes, Bytes), Bytes)>)
    ensures r.Ok? ==> |r.value.1| < |s| && r.value.0.0 !in seen
  {
    var tag :- Take(s, 4);
    var size :- Word(tag.1);
    if tag.0 in seen then Err("duplicate clangd RIFF chunk") else
    var body :- Take(size.1, size.0);
    if size.0 % 2 == 0 then Ok(((tag.0, body.0), body.1)) else
    var pad :- Take(body.1, 1);
    if pad.0 != [0] then Err("invalid clangd RIFF padding") else Ok(((tag.0, body.0), pad.1))
  }

  /** All chunks up to the end of the file, added to those read before. */
  function ChunkMap(s: Bytes, chunks: map<Bytes, Bytes>): (r: Result<map<Bytes, Bytes>>)
    decreases |s|
  {
    if s == [] then Ok(chunks) else
    var t :- Chunk(s, chunks.Keys);
    ChunkMap(t.1, chunks[t.0.0 := t.0.1])
  }

  /** The container's own header; what follows it are the chunks. */
  function Container(raw: Bytes): (r: Result<Bytes>) {
    var tag :- Take(raw, 4);
    if tag.0 != RIFF then Err("not a RIFF file") else
    var size :- Word(tag.1);
    if size.0 != |size.1| then Err("invalid clangd RIFF size or type") else
    var kind :- Take(size.1, 4);
    if kind.0 != CDIX then Err("invalid clangd RIFF size or type") else Ok(kind.1)
  }

  function Checked(chunks: map<Bytes, Bytes>): (r: Result<map<Bytes, Bytes>>)
    ensures r.Ok? ==> r.value == chunks && REQUIRED <= chunks.Keys <= ALLOWED
  {
    if !(chunks.Keys <= ALLOWED) then Err("unknown clangd RIFF chunk")
    else if !(REQUIRED <= chunks.Keys) then Err("missing clangd BackgroundIndex shard chunk")
    else if chunks[META] != PutWord(VERSION, []) then Err("unsupported clangd index version (expected 20)")
    else Ok(chunks)
  }

  function Chunks(raw: Bytes): (r: Result<map<Bytes, Bytes>>)
    ensures r.Ok? ==> REQUIRED <= r.value.Keys <= ALLOWED
  {
    var body :- Container(raw);
    var chunks :- ChunkMap(body, map[]);
    Checked(chunks)
  }

  // ---- the string table -----------------------------------------------------------------------

  /** What decompressing gave: its output, and whether the stream ended exactly with its input. */
  datatype Inflated = Inflated(output: Bytes, exact: bool)

  /** A decompressor, bounded in its output: an arbitrary function that may fail. */
  type Inflater = (Bytes, nat) -> Option<Inflated>

  /** The strings before each zero byte; what follows the last one is one more string. */
  function SplitZero(s: Bytes): (r: seq<Bytes>)
    ensures r != []
  {
    if s == [] then [[]]
    else if s[0] == 0 then [[]] + SplitZero(s[1..])
    else var rest := SplitZero(s[1..]); [[s[0]] + rest[0]] + rest[1..]
  }

  function Unpacked(inflate: Inflater, size: nat, packed: Bytes): (r: Result<Bytes>) {
    if size == 0 then Ok(packed) else
    match inflate(packed, size + 1)
    case None => Err("invalid compressed clangd string table")
    case Some(i) =>
      if |i.output| != size || !i.exact then Err("clangd string table size or compression mismatch") else Ok(i.output)
  }

  function Strings(inflate: Inflater, data: Bytes): (r: Result<seq<Bytes>>)
    ensures r.Ok? ==> r.value != []
  {
    var size :- Word(data);
    if size.0 > MAX_STRING_TABLE then Err("clangd shard string table exceeds 256 MiB") else
    var raw :- Unpacked(inflate, size.0, size.1);
    if raw == [] || Last(raw) != 0 then Err("unterminated clangd string table") else Ok(SplitZero(Init(raw)))
  }

  // ---- records --------------------------------------------------------------------------------

  function LocationAt(strings: seq<Bytes>, s: Bytes): (r: Result<(Location, Bytes)>)
    ensures r.Ok? ==> |r.value.1| < |s|
  {
    var uri :- StringAt(strings, s);
    var a :- Var(uri.1);
    var b :- Var(a.1);
    var c :- Var(b.1);
    var d :- Var(c.1);
    Ok((Location(uri.0, a.0, b.0, c.0, d.0), d.1))
  }

  function HeaderAt(strings: seq<Bytes>, s: Bytes): (r: Result<(Header, Bytes)>)
    ensures r.Ok? ==> |r.value.1| < |s|
  {
    var header :- StringAt(strings, s);
    var packed :- Var(header.1);
    Ok((Header(header.0, packed.0 / 4, packed.0 % 4), packed.1))
  }

  function HeadersAt(strings: seq<Bytes>, n: nat, s: Bytes): (r: Result<(seq<Header>, Bytes)>)
    ensures r.Ok? ==> |r.value.1| <= |s|
  {
    if n == 0 then Ok(([], s)) else
    var first :- HeaderAt(strings, s);
    var rest :- HeadersAt(strings, n - 1, first.1);
    Ok(([first.0] + rest.0, rest.1))
  }

  function StringsAt(strings: seq<Bytes>, n: nat, s: Bytes): (r: Result<(seq<Bytes>, Bytes)>)
    ensures r.Ok? ==> |r.value.1| <= |s|
  {
    if n == 0 then Ok(([], s)) else
    var first :- StringAt(strings, s);
    var rest :- StringsAt(strings, n - 1, first.1);
    Ok(([first.0] + rest.0, rest.1))
  }

  function NamingAt(strings: seq<Bytes>, s: Bytes): (r: Result<(Naming, Bytes)>)
    ensures r.Ok? ==> |r.value.1| < |s|
  {
    var id :- Take(s, 8);
    var kind :- OneByte(id.1);
    var language :- OneByte(kind.1);
    var name :- StringAt(strings, language.1);
    var scope :- StringAt(strings, name.1);
    var arguments :- StringAt(strings, scope.1);
    Ok((Naming(id.0, kind.0, language.0, name.0, scope.0, arguments.0), arguments.1))
  }

  function UsesAt(strings: seq<Bytes>, s: Bytes): (r: Result<(Uses, Bytes)>)
    ensures r.Ok? ==> |r.value.1| < |s|
  {
    var definition :- LocationAt(strings, s);
    var declaration :- LocationAt(strings, definition.1);
    var references :- Var(declaration.1);
    var flags :- OneByte(references.1);
    Ok((Uses(definition.0, declaration.0, references.0, flags.0), flags.1))
  }

  function TextsAt(strings: seq<Bytes>, s: Bytes): (r: Result<(Texts, Bytes)>)
    ensures r.Ok? ==> |r.value.1| < |s|
  {
    var signature :- StringAt(strings, s);
    var suffix :- StringAt(strings, signature.1);
    var documentation :- StringAt(strings, suffix.1);
    var returnType :- StringAt(strings, documentation.1);
    var typeName :- StringAt(strings, returnType.1);
    Ok((Texts(signature.0, suffix.0, documentation.0, returnType.0, typeName.0), typeName.1))
  }

  function SymbolAt(strings: seq<Bytes>, s: Bytes): (r: Result<(Symbol, Bytes)>)
    ensures r.Ok? ==> |r.value.1| < |s|
  {
    var naming :- NamingAt(strings, s);
    var uses :- UsesAt(strings, naming.1);
    var texts :- TextsAt(strings, uses.1);
    var count :- Count(texts.1);
    var headers :- HeadersAt(strings, count.0, count.1);
    Ok((Symbol(naming.0, uses.0, texts.0, headers.0), headers.1))
  }

  function UseAt(strings: seq<Bytes>, s: Bytes): (r: Result<(Use, Bytes)>)
    ensures r.Ok? ==> |r.value.1| < |s|
  {
    var kind :- OneByte(s);
    var location :- LocationAt(strings, kind.1);
    var container :- Take(location.1, 8);
    Ok((Use(kind.0, location.0, container.0), container.1))
  }

  function UseListAt(strings: seq<Bytes>, n: nat, s: Bytes): (r: Result<(seq<Use>, Bytes)>)
    ensures r.Ok? ==> |r.value.1| <= |s|
  {
    if n == 0 then Ok(([], s)) else
    var first :- UseAt(strings, s);
    var rest :- UseListAt(strings, n - 1, first.1);
    Ok(([first.0] + rest.0, rest.1))
  }

  function GroupAt(strings: seq<Bytes>, s: Bytes): (r: Result<(Group, Bytes)>)
    ensures r.Ok? ==> |r.value.1| < |s|
  {
    var symbol :- Take(s, 8);
    var count :- Count(symbol.1);
    var uses :- UseListAt(strings, count.0, count.1);
    Ok((Group(symbol.0, uses.0), uses.1))
  }

  function RelationAt(s: Bytes): (r: Result<(Relation, Bytes)>)
    ensures r.Ok? ==> |r.value.1| < |s|
  {
    var subject :- Take(s, 8);
    var relation :- OneByte(subject.1);
    var object' :- Take(relation.1, 8);
    Ok((Relation(subject.0, relation.0, object'.0), object'.1))
  }

  function SourceAt(strings: seq<Bytes>, s: Bytes): (r: Result<(Source, Bytes)>)
    ensures r.Ok? ==> |r.value.1| < |s|
  {
    var flags :- OneByte(s);
    var uri :- StringAt(strings, flags.1);
    var digest :- Take(uri.1, 8);
    var count :- Count(digest.1);
    var includes :- StringsAt(strings, count.0, count.1);
    Ok((Source(uri.0, Node(flags.0, digest.0, includes.0)), includes.1))
  }

  // ---- whole chunks ---------------------------------------------------------------------------

  function SymbolsIn(strings: seq<Bytes>, s: Bytes): (r: Result<seq<Symbol>>)
    decreases |s|
  {
    if s == [] then Ok([]) else
    var first :- SymbolAt(strings, s);
    var rest :- SymbolsIn(strings, first.1);
    Ok([first.0] + rest)
  }

  function Flat(group: Group): (r: seq<Ref>)
    ensures |r| == |group.uses|
  {
    seq(|group.uses|, i requires 0 <= i < |group.uses| => Ref(group.symbol, group.uses[i]))
  }

  function RefsIn(strings: seq<Bytes>, s: Bytes): (r: Result<seq<Ref>>)
    decreases |s|
  {
    if s == [] then Ok([]) else
    var first :- GroupAt(strings, s);
    var rest :- RefsIn(strings, first.1);
    Ok(Flat(first.0) + rest)
  }

  function RelationsIn(s: Bytes): (r: Result<seq<Relation>>)
    decreases |s|
  {
    if s == [] then Ok([]) else
    var first :- RelationAt(s);
    var rest :- RelationsIn(first.1);
    Ok([first.0] + rest)
  }

  /** The include graph nodes, each URI once, added to those read before. */
  function SourcesIn(strings: seq<Bytes>, s: Bytes, sources: map<Bytes, Node>): (r: Result<map<Bytes, Node>>)
    decreases |s|
  {
    if s == [] then Ok(sources) else
    var first :- SourceAt(strings, s);
    if first.0.uri in sources then Err("duplicate clangd include graph node")
    else SourcesIn(strings, first.1, sources[first.0.uri := first.0.node])
  }

  function CommandIn(strings: seq<Bytes>, s: Bytes): (r: Result<Command>) {
    var directory :- StringAt(strings, s);
    var count :- Count(directory.1);
    var arguments :- StringsAt(strings, count.0, count.1);
    if arguments.1 != [] then Err("trailing clangd command bytes") else Ok(Command(directory.0, arguments.0))
  }

  function OptionalCommand(strings: seq<Bytes>, chunks: map<Bytes, Bytes>): (r: Result<Option<Command>>) {
    if CMDL !in chunks then Ok(None) else
    var command :- CommandIn(strings, chunks[CMDL]);
    Ok(Some(command))
  }

  function Records(strings: seq<Bytes>, chunks: map<Bytes, Bytes>): (r: Result<Shard>)
    requires REQUIRED <= chunks.Keys
  {
    var symbols :- SymbolsIn(strings, chunks[SYMB]);
    var refs :- RefsIn(strings, chunks[REFS]);
    var relations :- RelationsIn(chunks[RELA]);
    var sources :- SourcesIn(strings, chunks[SRCS], map[]);
    var command :- OptionalCommand(strings, chunks);
    Ok(Shard(symbols, refs, relations, sources, command))
  }

  /** What the bytes of a shard file mean, or why they mean nothing. */
  function Decoded(inflate: Inflater, raw: Bytes): (r: Result<Shard>) {
    var chunks :- Chunks(raw);
    var strings :- Strings(inflate, chunks[STRI]);
    Records(strings, chunks)
  }
}
