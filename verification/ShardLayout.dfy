/** Where each field of a shard stands: the decoder against bytes written out one by one. */
module ShardLayout {
  import opened Prelude
  import opened ShardBytes
  import opened ShardFormat
  import opened ShardRoundTrip

  // ---- the offsets of the fields, for numbers of one digit ----------------------------------------

  predicate Digits(s: Bytes, from: nat, to: nat) {
    from <= to <= |s| && forall i :: from <= i < to ==> s[i] < 128
  }

  predicate Indexes(strings: seq<Bytes>, s: Bytes, from: nat, to: nat) {
    from <= to <= |s| && forall i :: from <= i < to ==> s[i] < 128 && s[i] < |strings|
  }

  lemma OneDigit(s: Bytes)
    requires s != [] && s[0] < 128
    ensures Var(s) == Ok((s[0], s[1..]))
  {
  }

  /** The low seven bits come first. */
  lemma TwoDigits(s: Bytes)
    requires |s| >= 2 && s[0] >= 128 && s[1] < 128
    ensures var low: nat, high: nat := s[0], s[1]; Var(s) == Ok((low - 128 + 128 * high, s[2..]))
  {
    assert VarFrom(s[1..], 1) == Ok((s[1], s[2..]));
  }

  lemma StringIndex(strings: seq<Bytes>, s: Bytes)
    requires s != [] && s[0] < 128 && s[0] < |strings|
    ensures StringAt(strings, s) == Ok((strings[s[0]], s[1..]))
  {
    OneDigit(s);
  }

  lemma Dropped(s: Bytes, i: nat, j: nat)
    requires i + j <= |s|
    ensures s[i..][j..] == s[i + j..]
  {
  }

  lemma LocationBytes(strings: seq<Bytes>, s: Bytes)
    requires Indexes(strings, s, 0, 1) && Digits(s, 1, 5)
    ensures LocationAt(strings, s) == Ok((Location(strings[s[0]], s[1], s[2], s[3], s[4]), s[5..]))
  {
    hide Var, StringAt;
    StringIndex(strings, s);
    OneDigit(s[1..]);
    OneDigit(s[2..]);
    OneDigit(s[3..]);
    OneDigit(s[4..]);
  }

  lemma NamingBytes(strings: seq<Bytes>, s: Bytes)
    requires |s| >= 13 && Indexes(strings, s, 10, 13)
    ensures NamingAt(strings, s)
            == Ok((Naming(s[..8], s[8], s[9], strings[s[10]], strings[s[11]], strings[s[12]]), s[13..]))
  {
    hide StringAt;
    StringIndex(strings, s[10..]);
    StringIndex(strings, s[11..]);
    StringIndex(strings, s[12..]);
    assert s[8..][1..] == s[9..] && s[9..][1..] == s[10..] && s[10..][1..] == s[11..] && s[11..][1..] == s[12..];
    assert s[12..][1..] == s[13..];
  }

  lemma UsesBytes(strings: seq<Bytes>, s: Bytes)
    requires |s| >= 12 && Indexes(strings, s, 0, 1) && Digits(s, 1, 5) && Indexes(strings, s, 5, 6) && Digits(s, 6, 11)
    ensures UsesAt(strings, s)
            == Ok((Uses(Location(strings[s[0]], s[1], s[2], s[3], s[4]), Location(strings[s[5]], s[6], s[7], s[8], s[9]),
                        s[10], s[11]), s[12..]))
  {
    hide Var, LocationAt;
    LocationBytes(strings, s);
    LocationBytes(strings, s[5..]);
    OneDigit(s[10..]);
    assert s[5..][5..] == s[10..] && s[10..][1..] == s[11..] && s[11..][1..] == s[12..];
  }

  lemma TextsBytes(strings: seq<Bytes>, s: Bytes)
    requires Indexes(strings, s, 0, 5)
    ensures TextsAt(strings, s)
            == Ok((Texts(strings[s[0]], strings[s[1]], strings[s[2]], strings[s[3]], strings[s[4]]), s[5..]))
  {
    hide StringAt;
    StringIndex(strings, s);
    StringIndex(strings, s[1..]);
    StringIndex(strings, s[2..]);
    StringIndex(strings, s[3..]);
    StringIndex(strings, s[4..]);
    assert s[1..][1..] == s[2..] && s[2..][1..] == s[3..] && s[3..][1..] == s[4..] && s[4..][1..] == s[5..];
  }

  lemma CountByte(s: Bytes)
    requires s != [] && s[0] < 128 && s[0] < |s|
    ensures Count(s) == Ok((s[0], s[1..]))
  {
    OneDigit(s);
  }

  /** A count of included headers stands behind its text; its two low bits are the directives. */
  lemma HeaderBytes(strings: seq<Bytes>, s: Bytes)
    requires Indexes(strings, s, 0, 1) && Digits(s, 1, 2)
    ensures HeadersAt(strings, 1, s) == Ok(([Header(strings[s[0]], s[1] / 4, s[1] % 4)], s[2..]))
  {
    hide Var, StringAt;
    StringIndex(strings, s);
    OneDigit(s[1..]);
    Dropped(s, 1, 1);
    assert HeadersAt(strings, 0, s[2..]) == Ok(([], s[2..]));
    var header := Header(strings[s[0]], s[1] / 4, s[1] % 4);
    assert HeaderAt(strings, s) == Ok((header, s[2..])) && [header] + [] == [header];
  }

  /** A symbol with one header takes 33 bytes. */
  lemma SymbolBytes(strings: seq<Bytes>, s: Bytes)
    requires |s| >= 33 && Indexes(strings, s, 10, 14) && Digits(s, 14, 18) && Indexes(strings, s, 18, 19) && Digits(s, 19, 24)
    requires Indexes(strings, s, 25, 30) && s[30] == 1 && Indexes(strings, s, 31, 32) && Digits(s, 32, 33)
    ensures SymbolAt(strings, s) == Ok((Symbol(
              Naming(s[..8], s[8], s[9], strings[s[10]], strings[s[11]], strings[s[12]]),
              Uses(Location(strings[s[13]], s[14], s[15], s[16], s[17]), Location(strings[s[18]], s[19], s[20], s[21], s[22]),
                   s[23], s[24]),
              Texts(strings[s[25]], strings[s[26]], strings[s[27]], strings[s[28]], strings[s[29]]),
              [Header(strings[s[31]], s[32] / 4, s[32] % 4)]), s[33..]))
  {
    hide Count, NamingAt, UsesAt, TextsAt, HeadersAt;
    NamingBytes(strings, s);
    UsesBytes(strings, s[13..]);
    Dropped(s, 13, 12);
    TextsBytes(strings, s[25..]);
    Dropped(s, 25, 5);
    CountByte(s[30..]);
    Dropped(s, 30, 1);
    HeaderBytes(strings, s[31..]);
    Dropped(s, 31, 2);
  }

  lemma UseBytes(strings: seq<Bytes>, s: Bytes)
    requires |s| >= 14 && Indexes(strings, s, 1, 2) && Digits(s, 2, 6)
    ensures UseListAt(strings, 1, s) == Ok(([Use(s[0], Location(strings[s[1]], s[2], s[3], s[4], s[5]), s[6..14])], s[14..]))
  {
    hide LocationAt;
    LocationBytes(strings, s[1..]);
    Dropped(s, 1, 5);
    Dropped(s, 6, 8);
    assert s[6..][..8] == s[6..14];
    assert UseListAt(strings, 0, s[14..]) == Ok(([], s[14..]));
    var u := Use(s[0], Location(strings[s[1]], s[2], s[3], s[4], s[5]), s[6..14]);
    assert UseAt(strings, s) == Ok((u, s[14..])) && [u] + [] == [u];
  }

  /** The references of a symbol with one of them take 23 bytes. */
  lemma GroupBytes(strings: seq<Bytes>, s: Bytes)
    requires |s| >= 23 && s[8] == 1 && Indexes(strings, s, 10, 11) && Digits(s, 11, 15)
    ensures GroupAt(strings, s)
            == Ok((Group(s[..8], [Use(s[9], Location(strings[s[10]], s[11], s[12], s[13], s[14]), s[15..23])]), s[23..]))
  {
    hide UseListAt, Count;
    CountByte(s[8..]);
    Dropped(s, 8, 1);
    UseBytes(strings, s[9..]);
    Dropped(s, 9, 14);
    assert s[9..][6..14] == s[15..23];
  }

  /** A relation takes 17 bytes. */
  lemma RelationBytes(s: Bytes)
    requires |s| >= 17
    ensures RelationAt(s) == Ok((Relation(s[..8], s[8], s[9..17]), s[17..]))
  {
    Dropped(s, 8, 1);
    Dropped(s, 9, 8);
    assert s[9..][..8] == s[9..17];
  }

  lemma OneString(strings: seq<Bytes>, s: Bytes)
    requires Indexes(strings, s, 0, 1)
    ensures StringsAt(strings, 1, s) == Ok(([strings[s[0]]], s[1..]))
  {
    hide StringAt;
    StringIndex(strings, s);
    assert StringsAt(strings, 0, s[1..]) == Ok(([], s[1..]));
    assert [strings[s[0]]] + [] == [strings[s[0]]];
  }

  /** An include graph node with one include takes 12 bytes. */
  lemma SourceBytes(strings: seq<Bytes>, s: Bytes)
    requires |s| >= 12 && Indexes(strings, s, 1, 2) && s[10] == 1 && Indexes(strings, s, 11, 12)
    ensures SourceAt(strings, s) == Ok((Source(strings[s[1]], Node(s[0], s[2..10], [strings[s[11]]])), s[12..]))
  {
    hide StringAt, Count, StringsAt;
    StringIndex(strings, s[1..]);
    Dropped(s, 1, 1);
    Dropped(s, 2, 8);
    CountByte(s[10..]);
    Dropped(s, 10, 1);
    OneString(strings, s[11..]);
    Dropped(s, 11, 1);
    assert s[2..][..8] == s[2..10];
  }

  /** A command with one argument takes 3 bytes, and nothing may follow. */
  lemma CommandBytes(strings: seq<Bytes>, s: Bytes)
    requires |s| == 3 && Indexes(strings, s, 0, 1) && s[1] == 1 && Indexes(strings, s, 2, 3)
    ensures CommandIn(strings, s) == Ok(Command(strings[s[0]], [strings[s[2]]]))
  {
    hide StringAt, Count, StringsAt;
    StringIndex(strings, s);
    CountByte(s[1..]);
    OneString(strings, s[2..]);
  }

  // ---- the container ------------------------------------------------------------------------------

  lemma WordBytes(s: Bytes)
    requires |s| >= 4 && s[1] == 0 && s[2] == 0 && s[3] == 0
    ensures Word(s) == Ok((s[0], s[4..]))
  {
  }

  /** A chunk of fewer than 256 bytes: its name, its size with the least byte first, its bytes, and a zero behind an odd
      number of them. */
  lemma PartBytes(tag: Bytes, size: Byte, body: Bytes, pad: Bytes, rest: Bytes, chunks: map<Bytes, Bytes>)
    requires |tag| == 4 && tag !in chunks && size == |body| && pad == if |body| % 2 == 0 then [] else [0]
    ensures ChunkMap(tag + ([size, 0, 0, 0] + (body + (pad + rest))), chunks) == ChunkMap(rest, chunks[tag := body])
  {
    hide Take, Word;
    var padded := pad + rest;
    var sized := [size, 0, 0, 0] + (body + padded);
    TakeBack(tag, sized);
    WordBytes(sized);
    assert sized[4..] == body + padded;
    TakeBack(body, padded);
    if pad == [] {
      assert padded == rest;
    } else {
      TakeBack([0], rest);
    }
    assert Chunk(tag + sized, chunks.Keys) == Ok(((tag, body), rest));
  }

  // ---- a whole file -------------------------------------------------------------------------------

  const ID: Bytes := [1, 2, 3, 4, 5, 6, 7, 8]
  const DIGEST: Bytes := [31, 32, 33, 34, 35, 36, 37, 38]
  const OTHER_ID: Bytes := [41, 42, 43, 44, 45, 46, 47, 48]
  const THIRD_ID: Bytes := [51, 52, 53, 54, 55, 56, 57, 58]

  /** "a" to "k", each with a zero byte behind it. */
  const TABLE: Bytes := [0x61, 0] + ([0x62, 0] + ([0x63, 0] + ([0x64, 0] + ([0x65, 0] + ([0x66, 0] + ([0x67, 0]
    + ([0x68, 0] + ([0x69, 0] + ([0x6a, 0] + [0x6b, 0])))))))))

  const LETTERS: seq<Bytes> := [[0x61]] + ([[0x62]] + ([[0x63]] + ([[0x64]] + ([[0x65]] + ([[0x66]] + ([[0x67]]
    + ([[0x68]] + ([[0x69]] + ([[0x6a]] + [[0x6b]])))))))))

  /** Kind, language, name, scope, arguments; definition; declaration; references, flags; five texts; one header. */
  const SYMBOL_BYTES: Bytes := ID + [21, 22, 0, 1, 2, 3, 23, 24, 25, 26, 4, 27, 28, 29, 30, 11, 12, 5, 6, 7, 8, 9, 1, 10, 35]

  /** One reference: kind and location, and the container. */
  const REF_BYTES: Bytes := ID + [1, 61, 3, 62, 63, 64, 65] + OTHER_ID

  const RELATION_BYTES: Bytes := OTHER_ID + [66] + THIRD_ID

  /** Flags, URI, digest, one include. */
  const NODE_BYTES: Bytes := [67, 3] + DIGEST + [1, 4]

  /** Directory and one argument. */
  const COMMAND_BYTES: Bytes := [5, 1, 6]

  const CMDL_PART: Bytes := [0x63, 0x6d, 0x64, 0x6c] + ([3, 0, 0, 0] + (COMMAND_BYTES + ([0] + [])))
  const SRCS_PART: Bytes := [0x73, 0x72, 0x63, 0x73] + ([12, 0, 0, 0] + (NODE_BYTES + ([] + CMDL_PART)))
  const RELA_PART: Bytes := [0x72, 0x65, 0x6c, 0x61] + ([17, 0, 0, 0] + (RELATION_BYTES + ([0] + SRCS_PART)))
  const REFS_PART: Bytes := [0x72, 0x65, 0x66, 0x73] + ([23, 0, 0, 0] + (REF_BYTES + ([0] + RELA_PART)))
  const SYMB_PART: Bytes := [0x73, 0x79, 0x6d, 0x62] + ([33, 0, 0, 0] + (SYMBOL_BYTES + ([0] + REFS_PART)))
  const STRI_PART: Bytes := [0x73, 0x74, 0x72, 0x69] + ([26, 0, 0, 0] + (([0, 0, 0, 0] + TABLE) + ([] + SYMB_PART)))
  const META_PART: Bytes := [0x6d, 0x65, 0x74, 0x61] + ([4, 0, 0, 0] + ([20, 0, 0, 0] + ([] + STRI_PART)))

  const EXAMPLE: Bytes := [0x52, 0x49, 0x46, 0x46] + ([182, 0, 0, 0] + ([0x43, 0x64, 0x49, 0x78] + META_PART))

  lemma LetterFirst(x: Byte, tail: Bytes)
    requires x != 0 && tail != []
    ensures SplitZero(Init([x, 0] + tail)) == [[x]] + SplitZero(Init(tail))
  {
    SplitFirst([x], Init(tail));
    assert Init([x, 0] + tail) == [x] + [0] + Init(tail);
  }

  lemma TableIsLetters()
    ensures |TABLE| == 22 && Last(TABLE) == 0 && SplitZero(Init(TABLE)) == LETTERS
  {
    hide SplitZero;
    var t9: Bytes := [0x6a, 0] + [0x6b, 0];
    var t8: Bytes := [0x69, 0] + t9;
    var t7: Bytes := [0x68, 0] + t8;
    var t6: Bytes := [0x67, 0] + t7;
    var t5: Bytes := [0x66, 0] + t6;
    var t4: Bytes := [0x65, 0] + t5;
    var t3: Bytes := [0x64, 0] + t4;
    var t2: Bytes := [0x63, 0] + t3;
    var t1: Bytes := [0x62, 0] + t2;
    SplitOnly([0x6b]);
    assert Init([0x6b, 0]) == [0x6b];
    LetterFirst(0x6a, [0x6b, 0]);
    LetterFirst(0x69, t9);
    LetterFirst(0x68, t8);
    LetterFirst(0x67, t7);
    LetterFirst(0x66, t6);
    LetterFirst(0x65, t5);
    LetterFirst(0x64, t4);
    LetterFirst(0x63, t3);
    LetterFirst(0x62, t2);
    LetterFirst(0x61, t1);
  }

  lemma ExampleStrings(inflate: Inflater)
    ensures Strings(inflate, [0, 0, 0, 0] + TABLE) == Ok(LETTERS)
  {
    hide SplitZero, TABLE, LETTERS;
    TableIsLetters();
    WordBytes([0, 0, 0, 0] + TABLE);
    assert ([0, 0, 0, 0] + TABLE)[4..] == TABLE;
  }

  lemma Letters()
    ensures |LETTERS| == 11 && LETTERS[0] == [0x61] && LETTERS[1] == [0x62] && LETTERS[2] == [0x63] && LETTERS[3] == [0x64]
    ensures LETTERS[4] == [0x65] && LETTERS[5] == [0x66] && LETTERS[6] == [0x67] && LETTERS[7] == [0x68]
    ensures LETTERS[8] == [0x69] && LETTERS[9] == [0x6a] && LETTERS[10] == [0x6b]
  {
  }

  lemma ExampleSymbol()
    ensures |SYMBOL_BYTES| == 33 && SymbolsIn(LETTERS, SYMBOL_BYTES)
            == Ok([Symbol(Naming(ID, 21, 22, [0x61], [0x62], [0x63]),
                          Uses(Location([0x64], 23, 24, 25, 26), Location([0x65], 27, 28, 29, 30), 11, 12),
                          Texts([0x66], [0x67], [0x68], [0x69], [0x6a]), [Header([0x6b], 8, 3)])])
  {
    hide SymbolAt, LETTERS;
    Letters();
    SymbolBytes(LETTERS, SYMBOL_BYTES);
    assert SYMBOL_BYTES[..8] == ID && SYMBOL_BYTES[33..] == [];
    assert SymbolsIn(LETTERS, []) == Ok([]);
    var symbol := SymbolAt(LETTERS, SYMBOL_BYTES).value.0;
    assert [symbol] + [] == [symbol];
  }

  lemma ExampleRef()
    ensures |REF_BYTES| == 23
            && RefsIn(LETTERS, REF_BYTES) == Ok([Ref(ID, Use(61, Location([0x64], 62, 63, 64, 65), OTHER_ID))])
  {
    hide GroupAt, LETTERS;
    Letters();
    GroupBytes(LETTERS, REF_BYTES);
    assert REF_BYTES[..8] == ID && REF_BYTES[15..23] == OTHER_ID && REF_BYTES[23..] == [];
    var use := Use(61, Location([0x64], 62, 63, 64, 65), OTHER_ID);
    assert Flat(Group(ID, [use])) == [Ref(ID, use)];
    assert RefsIn(LETTERS, []) == Ok([]) && [Ref(ID, use)] + [] == [Ref(ID, use)];
  }

  lemma ExampleRelation()
    ensures |RELATION_BYTES| == 17 && RelationsIn(RELATION_BYTES) == Ok([Relation(OTHER_ID, 66, THIRD_ID)])
  {
    hide RelationAt;
    RelationBytes(RELATION_BYTES);
    assert RELATION_BYTES[..8] == OTHER_ID && RELATION_BYTES[9..17] == THIRD_ID && RELATION_BYTES[17..] == [];
    var relation := Relation(OTHER_ID, 66, THIRD_ID);
    assert RelationsIn([]) == Ok([]) && [relation] + [] == [relation];
  }

  lemma ExampleNode()
    ensures |NODE_BYTES| == 12
            && SourcesIn(LETTERS, NODE_BYTES, map[]) == Ok(map[[0x64] := Node(67, DIGEST, [[0x65]])])
  {
    hide SourceAt, LETTERS;
    Letters();
    SourceBytes(LETTERS, NODE_BYTES);
    assert NODE_BYTES[2..10] == DIGEST && NODE_BYTES[12..] == [];
  }

  lemma ExampleCommand()
    ensures CommandIn(LETTERS, COMMAND_BYTES) == Ok(Command([0x66], [[0x67]]))
  {
    hide LETTERS;
    Letters();
    CommandBytes(LETTERS, COMMAND_BYTES);
  }

  lemma TagsDiffer()
    ensures META != STRI && META != SYMB && META != REFS && META != RELA && META != SRCS && META != CMDL
    ensures STRI != SYMB && STRI != REFS && STRI != RELA && STRI != SRCS && STRI != CMDL
    ensures SYMB != REFS && SYMB != RELA && SYMB != SRCS && SYMB != CMDL && REFS != RELA && REFS != SRCS && REFS != CMDL
    ensures RELA != SRCS && RELA != CMDL && SRCS != CMDL
  {
    assert META[0] != STRI[0] && META[0] != SYMB[0] && META[0] != REFS[0] && META[0] != RELA[0] && META[0] != SRCS[0];
    assert META[0] != CMDL[0] && STRI[1] != SYMB[1] && STRI[0] != REFS[0] && STRI[0] != RELA[0] && STRI[1] != SRCS[1];
    assert STRI[0] != CMDL[0] && SYMB[0] != REFS[0] && SYMB[0] != RELA[0] && SYMB[1] != SRCS[1] && SYMB[0] != CMDL[0];
    assert REFS[2] != RELA[2] && REFS[0] != SRCS[0] && REFS[0] != CMDL[0] && RELA[0] != SRCS[0] && RELA[0] != CMDL[0];
    assert SRCS[0] != CMDL[0];
  }

  lemma PartSizes()
    ensures |CMDL_PART| == 12 && |SRCS_PART| == 32 && |RELA_PART| == 58 && |REFS_PART| == 90 && |SYMB_PART| == 132
    ensures |STRI_PART| == 166 && |META_PART| == 178
  {
    ExampleSymbol();
    ExampleRef();
    ExampleRelation();
    ExampleNode();
    TableIsLetters();
  }

  function ExampleMap(): map<Bytes, Bytes> {
    var none: map<Bytes, Bytes> := map[];
    none[META := [20, 0, 0, 0]][STRI := [0, 0, 0, 0] + TABLE][SYMB := SYMBOL_BYTES][REFS := REF_BYTES]
        [RELA := RELATION_BYTES][SRCS := NODE_BYTES][CMDL := COMMAND_BYTES]
  }

  lemma ExampleChunks()
    ensures Chunks(EXAMPLE) == Ok(ExampleMap())
  {
    hide Chunk, ChunkMap, Container, Checked;
    hide TABLE, SYMBOL_BYTES, REF_BYTES, RELATION_BYTES, NODE_BYTES, META_PART;
    ExampleContainer();
    ExampleParts();
    ExampleChecked();
  }

  lemma ExampleContainer()
    ensures Container(EXAMPLE) == Ok(META_PART)
  {
    hide Word, META_PART;
    PartSizes();
    var typed: Bytes := [0x43, 0x64, 0x49, 0x78] + META_PART;
    var sized: Bytes := [182, 0, 0, 0] + typed;
    TakeBack(RIFF, sized);
    WordBytes(sized);
    assert sized[4..] == typed;
    TakeBack(CDIX, META_PART);
  }

  lemma MetaPart(chunks: map<Bytes, Bytes>)
    requires META !in chunks
    ensures ChunkMap(META_PART, chunks) == ChunkMap(STRI_PART, chunks[META := [20, 0, 0, 0]])
  {
    hide ChunkMap, STRI_PART;
    PartBytes(META, 4, [20, 0, 0, 0], [], STRI_PART, chunks);
  }

  lemma StringsPart(chunks: map<Bytes, Bytes>)
    requires STRI !in chunks
    ensures ChunkMap(STRI_PART, chunks) == ChunkMap(SYMB_PART, chunks[STRI := [0, 0, 0, 0] + TABLE])
  {
    hide ChunkMap, TABLE, SYMB_PART;
    TableIsLetters();
    PartBytes(STRI, 26, [0, 0, 0, 0] + TABLE, [], SYMB_PART, chunks);
  }

  lemma SymbolsPart(chunks: map<Bytes, Bytes>)
    requires SYMB !in chunks
    ensures ChunkMap(SYMB_PART, chunks) == ChunkMap(REFS_PART, chunks[SYMB := SYMBOL_BYTES])
  {
    hide ChunkMap, SYMBOL_BYTES, REFS_PART;
    ExampleSymbol();
    PartBytes(SYMB, 33, SYMBOL_BYTES, [0], REFS_PART, chunks);
  }

  lemma RefsPart(chunks: map<Bytes, Bytes>)
    requires REFS !in chunks
    ensures ChunkMap(REFS_PART, chunks) == ChunkMap(RELA_PART, chunks[REFS := REF_BYTES])
  {
    hide ChunkMap, REF_BYTES, RELA_PART;
    ExampleRef();
    PartBytes(REFS, 23, REF_BYTES, [0], RELA_PART, chunks);
  }

  lemma RelationsPart(chunks: map<Bytes, Bytes>)
    requires RELA !in chunks
    ensures ChunkMap(RELA_PART, chunks) == ChunkMap(SRCS_PART, chunks[RELA := RELATION_BYTES])
  {
    hide ChunkMap, RELATION_BYTES, SRCS_PART;
    ExampleRelation();
    PartBytes(RELA, 17, RELATION_BYTES, [0], SRCS_PART, chunks);
  }

  lemma NodesPart(chunks: map<Bytes, Bytes>)
    requires SRCS !in chunks
    ensures ChunkMap(SRCS_PART, chunks) == ChunkMap(CMDL_PART, chunks[SRCS := NODE_BYTES])
  {
    hide ChunkMap, NODE_BYTES, CMDL_PART;
    ExampleNode();
    PartBytes(SRCS, 12, NODE_BYTES, [], CMDL_PART, chunks);
  }

  lemma CommandPart(chunks: map<Bytes, Bytes>)
    requires CMDL !in chunks
    ensures ChunkMap(CMDL_PART, chunks) == Ok(chunks[CMDL := COMMAND_BYTES])
  {
    hide ChunkMap;
    PartBytes(CMDL, 3, COMMAND_BYTES, [0], [], chunks);
    NoMoreChunks(chunks[CMDL := COMMAND_BYTES]);
  }

  lemma ExampleParts()
    ensures ChunkMap(META_PART, map[]) == Ok(ExampleMap())
  {
    hide ChunkMap, TABLE, SYMBOL_BYTES, REF_BYTES, RELATION_BYTES, NODE_BYTES, COMMAND_BYTES;
    hide META_PART, STRI_PART, SYMB_PART, REFS_PART, RELA_PART, SRCS_PART, CMDL_PART, META, STRI, SYMB, REFS, RELA, SRCS, CMDL;
    TagsDiffer();
    var none: map<Bytes, Bytes> := map[];
    var m0 := none[META := [20, 0, 0, 0]];
    var m1 := m0[STRI := [0, 0, 0, 0] + TABLE];
    var m2 := m1[SYMB := SYMBOL_BYTES];
    var m3 := m2[REFS := REF_BYTES];
    var m4 := m3[RELA := RELATION_BYTES];
    var m5 := m4[SRCS := NODE_BYTES];
    MetaPart(none);
    StringsPart(m0);
    SymbolsPart(m1);
    RefsPart(m2);
    RelationsPart(m3);
    NodesPart(m4);
    CommandPart(m5);
  }

  lemma NoMoreChunks(chunks: map<Bytes, Bytes>)
    ensures ChunkMap([], chunks) == Ok(chunks)
  {
  }

  lemma ExampleChecked()
    ensures Checked(ExampleMap()) == Ok(ExampleMap()) && CMDL in ExampleMap() && REQUIRED <= ExampleMap().Keys
    ensures ExampleMap()[STRI] == [0, 0, 0, 0] + TABLE && ExampleMap()[SYMB] == SYMBOL_BYTES
    ensures ExampleMap()[REFS] == REF_BYTES && ExampleMap()[RELA] == RELATION_BYTES
    ensures ExampleMap()[SRCS] == NODE_BYTES && ExampleMap()[CMDL] == COMMAND_BYTES
  {
    hide TABLE, SYMBOL_BYTES, REF_BYTES, RELATION_BYTES, NODE_BYTES;
    TagsDiffer();
    assert PutWord(VERSION, []) == [20, 0, 0, 0];
  }

  /** The bytes of `EXAMPLE` mean exactly these records. */
  lemma ExampleDecodes(inflate: Inflater)
    ensures Decoded(inflate, EXAMPLE) == Ok(Shard(
              [Symbol(Naming([1, 2, 3, 4, 5, 6, 7, 8], 21, 22, [0x61], [0x62], [0x63]),
                      Uses(Location([0x64], 23, 24, 25, 26), Location([0x65], 27, 28, 29, 30), 11, 12),
                      Texts([0x66], [0x67], [0x68], [0x69], [0x6a]), [Header([0x6b], 8, 3)])],
              [Ref([1, 2, 3, 4, 5, 6, 7, 8],
                   Use(61, Location([0x64], 62, 63, 64, 65), [41, 42, 43, 44, 45, 46, 47, 48]))],
              [Relation([41, 42, 43, 44, 45, 46, 47, 48], 66, [51, 52, 53, 54, 55, 56, 57, 58])],
              map[[0x64] := Node(67, [31, 32, 33, 34, 35, 36, 37, 38], [[0x65]])],
              Some(Command([0x66], [[0x67]]))))
  {
    hide Chunks, Strings, SymbolsIn, RefsIn, RelationsIn, SourcesIn, CommandIn, ExampleMap;
    hide TABLE, LETTERS, SYMBOL_BYTES, REF_BYTES, RELATION_BYTES, NODE_BYTES, COMMAND_BYTES, EXAMPLE, REQUIRED, ALLOWED;
    ExampleChunks();
    ExampleChecked();
    ExampleStrings(inflate);
    ExampleSymbol();
    ExampleRef();
    ExampleRelation();
    ExampleNode();
    ExampleCommand();
  }
}
