/** What `_parse` says about the command of a candidate that `build_candidates` builds from parsed commands. */
module OrderedCandidates {
  import opened Prelude
  import opened OrderedUnity
  import opened OrderedCommand
  import opened OrderedPlanner

  /** Path questions: the key and the absolute path of an argument in a directory, and is a path a Definitions header. */
  datatype Paths = Paths(key: (string, string) -> string, absolute: (string, string) -> string, isDefinitions: string -> bool)

  /** A compile command, its write-only flags stripped. */
  datatype CompileCommand = CompileCommand(file: string, arguments: seq<string>)

  /** How arguments are read in this directory when this is the source. */
  function ReadingOf(paths: Paths, directory: string, file: string): Reading {
    Reading(arg => paths.key(directory, arg) == paths.key(directory, file), path => paths.absolute(directory, path),
            paths.isDefinitions)
  }

  /** The input was made from these commands: every entry holds what reading its arguments gives. */
  ghost predicate ParsedFrom(paths: Paths, commands: seq<CompileCommand>, input: Input) {
    && |commands| == |input.entries|
    && forall k :: 0 <= k < |commands| ==>
         input.entries[k].parsed
         == ParseFrom(ReadingOf(paths, input.entries[k].directory, commands[k].file), commands[k].arguments, NOTHING)
  }

  /** The tokens of every piece but the source. */
  function Operands(ps: seq<Piece>): seq<string> {
    if ps == [] then [] else Operands(Init(ps)) + if Last(ps).Source? then [] else Tokens(Last(ps))
  }

  lemma {:induction false} OperandsAreUsed(ps: seq<Piece>)
    ensures Uses(ps, Operands(ps))
  {
    hide Tokens;
    if ps != [] {
      assert ps == Init(ps) + [Last(ps)];
      OperandsAreUsed(Init(ps));
    }
  }

  /** The operands are what stands in a command beside its source. */
  lemma {:induction false} OperandsAre(ps: seq<Piece>, t: string)
    ensures t in Operands(ps) <==> exists k :: 0 <= k < |ps| && !ps[k].Source? && t in Tokens(ps[k])
  {
    hide Tokens;
    if ps != [] {
      OperandsAre(Init(ps), t);
      var n := |ps| - 1;
      assert forall k :: 0 <= k < n ==> Init(ps)[k] == ps[k];
    }
  }

  /** The command starts with the compiler, holds no mark, and no operand of it names the wrapper. */
  ghost predicate Mergeable(paths: Paths, directory: string, command: CompileCommand, wrapper: string) {
    var ps := Pieces(ReadingOf(paths, directory, command.file), command.arguments);
    && ps.Ok? && ps.value != [] && ps.value[0].Other? && !Indirect(wrapper)
    && forall t :: t in Operands(ps.value) ==> t != SOURCE_MARK && paths.key(directory, t) != paths.key(directory, wrapper)
  }

  lemma WrapperIsRead(paths: Paths, directory: string, command: CompileCommand, wrapper: string)
    requires Mergeable(paths, directory, command, wrapper)
    ensures var reading, merged := ReadingOf(paths, directory, command.file), ReadingOf(paths, directory, wrapper);
            var ps := Pieces(reading, command.arguments).value;
            && Uses(ps, Operands(ps)) && ReadsWrapper(reading, merged, wrapper, Operands(ps))
            && merged.isDefinitions == reading.isDefinitions
  {
    hide Pieces, Uses, Operands, Indirect;
    OperandsAreUsed(Pieces(ReadingOf(paths, directory, command.file), command.arguments).value);
  }

  // ---- what the lists of the candidate's pieces are ---------------------------------------------

  lemma CollectedSnoc(reading: Reading, ps: seq<Piece>, p: Piece)
    ensures CommonOf(reading, ps + [p]) == CommonOf(reading, ps) + CommonOf(reading, [p])
    ensures SearchOf(ps + [p]) == SearchOf(ps) + SearchOf([p]) && SourcesOf(ps + [p]) == SourcesOf(ps) + SourcesOf([p])
  {
    hide IsDefinitions;
    assert Init(ps + [p]) == ps && Init([p]) == [];
  }

  lemma {:induction false} CollectedAppend(reading: Reading, a: seq<Piece>, b: seq<Piece>)
    ensures CommonOf(reading, a + b) == CommonOf(reading, a) + CommonOf(reading, b)
    ensures SearchOf(a + b) == SearchOf(a) + SearchOf(b) && SourcesOf(a + b) == SourcesOf(a) + SourcesOf(b)
  {
    hide CommonOf, SearchOf, SourcesOf;
    if b == [] {
      assert a + b == a;
      NothingCollected(reading);
    } else {
      var before, p := Init(b), Last(b);
      CollectedAppend(reading, a, before);
      CollectedSnoc(reading, a + before, p);
      CollectedSnoc(reading, before, p);
      assert a + b == (a + before) + [p] && b == before + [p];
      Associates(CommonOf(reading, a), CommonOf(reading, before), CommonOf(reading, [p]));
      Associates(SearchOf(a), SearchOf(before), SearchOf([p]));
    }
  }

  lemma {:induction false} SearchCollected(reading: Reading, search: seq<seq<string>>)
    ensures CommonOf(reading, SearchPieces(search)) == [] && SourcesOf(SearchPieces(search)) == 0
    ensures SearchOf(SearchPieces(search)) == search
  {
    if search != [] {
      SearchCollected(reading, Init(search));
      assert Init(SearchPieces(search)) == SearchPieces(Init(search));
    }
  }

  ghost predicate NoneIsDefinitions(reading: Reading, ps: seq<Piece>) {
    forall p :: p in ps ==> !IsDefinitions(reading, p)
  }

  /** The shared pieces hold the shared arguments and as many sources as before, and nothing else. */
  lemma {:induction false} SharedCollected(reading: Reading, merged: Reading, ps: seq<Piece>, wrapper: string)
    requires merged.isDefinitions == reading.isDefinitions
    ensures var shared := SharedPieces(reading, ps, wrapper);
            && CommonOf(merged, shared) == CommonOf(reading, ps) && SearchOf(shared) == []
            && SourcesOf(shared) == SourcesOf(ps) && NoneIsDefinitions(merged, shared)
  {
    if ps != [] {
      SharedCollected(reading, merged, Init(ps), wrapper);
      var before, shared := SharedPieces(reading, Init(ps), wrapper), SharedPieces(reading, ps, wrapper);
      if shared != before { assert shared == before + [Last(shared)] && Init(shared) == before; }
    }
  }

  lemma NoDefinitionsParse(reading: Reading, ps: seq<Piece>)
    requires NoneIsDefinitions(reading, ps)
    ensures DefinitionsLast(reading, ps) && DefinitionsOf(reading, ps) == []
  {
    hide IsDefinitions, DefinitionsOf;
    assert forall j :: 0 <= j < |ps| ==> ps[j] in ps;
    NoDefinitions(reading, ps);
  }

  lemma WholeCollected(reading: Reading, merged: Reading, ps: seq<Piece>, search: seq<seq<string>>, wrapper: string)
    requires merged.isDefinitions == reading.isDefinitions && ps != [] && ps[0].Other?
    ensures var whole := [ps[0]] + SearchPieces(search) + SharedPieces(reading, ps[1..], wrapper);
            && CommonOf(merged, whole) == CommonOf(reading, ps) && SearchOf(whole) == search
            && SourcesOf(whole) == SourcesOf(ps) && NoneIsDefinitions(merged, whole)
  {
    hide CommonOf, SearchOf, SourcesOf, SharedPieces;
    var first, options, shared := [ps[0]], SearchPieces(search), SharedPieces(reading, ps[1..], wrapper);
    assert ps == first + ps[1..];
    CollectedAppend(merged, first + options, shared);
    CollectedAppend(merged, first, options);
    CollectedAppend(reading, first, ps[1..]);
    SearchCollected(merged, search);
    SharedCollected(reading, merged, ps[1..], wrapper);
    CompilerCollected(reading, ps[0]);
    CompilerCollected(merged, ps[0]);
    OnePlusNone(ps[0].argument, search);
  }

  lemma CompilerCollected(reading: Reading, p: Piece)
    requires p.Other?
    ensures CommonOf(reading, [p]) == [p.argument] && SearchOf([p]) == [] && SourcesOf([p]) == 0
  {
    assert Init([p]) == [];
  }

  lemma OnePlusNone(x: string, search: seq<seq<string>>)
    ensures [x] + [] == [x] && [] + search == search && search + [] == search
  {
  }

  // ---- a built candidate ------------------------------------------------------------------------

  /** What an item holds of the command it was made from. */
  lemma ItemIsParsed(input: Input, bounds: Bounds, x: Item)
    requires Admits(input, bounds, x.index) && Admit(input, bounds, x.index).value == x
    ensures input.entries[x.index].parsed == Ok(Parsed(x.context.common, x.search, x.original.definitions))
    ensures x.context.directory == input.entries[x.index].directory
  {
    hide Unambiguous, Semantic, Generated, IncludePath;
  }

  /** Every option that an original searches is read as that option in the merged command. */
  lemma {:induction false} OptionFits(reading: Reading, merged: Reading, wrapper: string, tokens: seq<string>, ps: seq<Piece>,
                                      option: seq<string>)
    requires ReadsWrapper(reading, merged, wrapper, tokens) && Uses(ps, tokens)
    requires (forall p :: p in ps ==> OrderedCommand.Fits(reading, p)) && option in SearchOf(ps)
    ensures OrderedCommand.Fits(merged, Search(option))
  {
    hide OrderedCommand.Fits, ReadsWrapper, Tokens;
    if ps != [] {
      assert ps == Init(ps) + [Last(ps)];
      if option in SearchOf(Init(ps)) {
        OptionFits(reading, merged, wrapper, tokens, Init(ps), option);
      } else {
        StillFits(reading, merged, wrapper, tokens, Last(ps));
      }
    }
  }

  /** The commands of all merged originals can be merged under the wrapper of the candidate. */
  ghost predicate AllMergeable(paths: Paths, commands: seq<CompileCommand>, c: Candidate) {
    forall x :: x in c.items ==> x.index < |commands| && Mergeable(paths, c.directory, commands[x.index], c.wrapper)
  }

  lemma ItemIsRead(paths: Paths, commands: seq<CompileCommand>, input: Input, bounds: Bounds, place: Placing, c: Candidate, x: Item)
    requires ParsedFrom(paths, commands, input)
    requires bounds.originals >= 1 && c.items in Candidates(input, bounds) && Realizes(place, c) && x in c.items
    ensures x.index < |commands| && x.context.directory == c.directory && x.context.common == c.items[0].context.common
    ensures ParseFrom(ReadingOf(paths, c.directory, commands[x.index].file), commands[x.index].arguments, NOTHING)
            == Ok(Parsed(x.context.common, x.search, x.original.definitions))
  {
    hide Candidates, Admit, ParseFrom, Touches, CandidateArguments, Distinct;
    CandidateIsLawful(input, bounds, c.items);
    ItemIsParsed(input, bounds, x);
  }

  lemma OptionsFit(paths: Paths, commands: seq<CompileCommand>, input: Input, bounds: Bounds, place: Placing, c: Candidate)
    requires ParsedFrom(paths, commands, input) && AllMergeable(paths, commands, c)
    requires bounds.originals >= 1 && c.items in Candidates(input, bounds) && Realizes(place, c)
    ensures forall option :: option in c.search ==> OrderedCommand.Fits(ReadingOf(paths, c.directory, c.wrapper), Search(option))
  {
    hide Candidates, ParsedFrom, ParseFrom, Pieces, OrderedCommand.Fits, ReadsWrapper, Uses, Operands, SearchOf, CommonOf;
    hide DefinitionsOf, DefinitionsLast, SourcesOf, ReadingOf, CandidateArguments;
    forall option | option in c.search
      ensures OrderedCommand.Fits(ReadingOf(paths, c.directory, c.wrapper), Search(option))
    {
      var x :| x in c.items && option in x.search;
      ItemIsRead(paths, commands, input, bounds, place, c, x);
      var command := commands[x.index];
      var reading, merged := ReadingOf(paths, c.directory, command.file), ReadingOf(paths, c.directory, c.wrapper);
      var ps := Pieces(reading, command.arguments).value;
      WrapperIsRead(paths, c.directory, command, c.wrapper);
      ParseMeans(reading, command.arguments);
      PiecesFit(reading, command.arguments);
      OptionFits(reading, merged, c.wrapper, Operands(ps), ps, option);
    }
  }

  /** End to end: the command built for a candidate reads, for each original it merges, as that original's compiler, the
      united search options, and the rest of its command with the wrapper for the source and without its Definitions
      headers; so it parses, to the shared arguments, the united search options and no Definitions header. */
  lemma CandidateParses(paths: Paths, commands: seq<CompileCommand>, input: Input, bounds: Bounds, place: Placing,
                        c: Candidate, x: Item)
    requires ParsedFrom(paths, commands, input) && AllMergeable(paths, commands, c)
    requires bounds.originals >= 1 && c.items in Candidates(input, bounds) && Realizes(place, c) && x in c.items
    ensures x.index < |commands|
    ensures var reading := ReadingOf(paths, c.directory, commands[x.index].file);
            var merged := ReadingOf(paths, c.directory, c.wrapper);
            var ps := Pieces(reading, commands[x.index].arguments);
            && ps.Ok? && ps.value != []
            && Pieces(merged, c.arguments)
               == Ok([ps.value[0]] + SearchPieces(c.search) + SharedPieces(reading, ps.value[1..], c.wrapper))
            && ParseFrom(merged, c.arguments, NOTHING) == Ok(Parsed(x.context.common, c.search, []))
  {
    hide Candidates, ParsedFrom, ParseFrom, Pieces, OrderedCommand.Fits, ReadsWrapper, Uses, Operands, SearchOf, CommonOf;
    hide DefinitionsOf, DefinitionsLast, SourcesOf, ReadingOf, CandidateArguments, SharedPieces, NoneIsDefinitions, Touches;
    ItemIsRead(paths, commands, input, bounds, place, c, x);
    OptionsFit(paths, commands, input, bounds, place, c);
    var command := commands[x.index];
    var reading, merged := ReadingOf(paths, c.directory, command.file), ReadingOf(paths, c.directory, c.wrapper);
    var ps := Pieces(reading, command.arguments).value;
    WrapperIsRead(paths, c.directory, command, c.wrapper);
    CandidateReads(reading, merged, command.arguments, ps, c.search, c.wrapper, Operands(ps));
    WholeCollected(reading, merged, ps, c.search, c.wrapper);
    ParseMeans(reading, command.arguments);
    ParseMeans(merged, c.arguments);
    NoDefinitionsParse(merged, Pieces(merged, c.arguments).value);
  }
}
