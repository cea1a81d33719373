/** `_parse`: what an original's command is made of, and what the merged command is made of. */
module OrderedCommand {
  import opened Prelude
  import opened OrderedUnity

  /** Path questions about one directory: is this the source, its absolute path, is that a Definitions header. */
  datatype Reading = Reading(isSource: string -> bool, absolute: string -> string, isDefinitions: string -> bool)

  /** One argument, or two that belong together. */
  datatype Piece =
    | Source(token: string)
    | Search(option: seq<string>)
    | Forced(flag: string, path: string, tokens: seq<string>)
    | Other(argument: string)

  const SOURCE_MARK := "<SOURCE>"
  const SEARCH_FLAGS := ["-I", "-isystem", "-iquote", "-idirafter", "-F", "-iframework"]

  predicate StartsWith(s: string, prefix: string) {
    |prefix| <= |s| && s[..|prefix|] == prefix
  }

  predicate Indirect(arg: string) {
    || StartsWith(arg, "@") || arg == "--config" || arg == "-ivfsoverlay"
    || StartsWith(arg, "--config=") || StartsWith(arg, "-ivfsoverlay=")
  }

  predicate JoinedSearch(arg: string) {
    || ((StartsWith(arg, "-I") || StartsWith(arg, "-F")) && |arg| > 2)
    || StartsWith(arg, "-isystem=") || StartsWith(arg, "-iquote=") || StartsWith(arg, "-idirafter=")
    || StartsWith(arg, "-F=") || StartsWith(arg, "-iframework=")
  }

  /** The forced-include flag of an argument, and whether its path is the next argument. */
  function ForcedFlag(arg: string): Option<(string, bool)> {
    if arg == "-include-pch" || StartsWith(arg, "-include-pch=") then Some(("-include-pch", arg == "-include-pch"))
    else if arg == "-include" || StartsWith(arg, "-include=") then Some(("-include", arg == "-include"))
    else if arg == "-imacros" || StartsWith(arg, "-imacros=") then Some(("-imacros", arg == "-imacros"))
    else None
  }

  function AfterEquals(arg: string): string {
    if arg == "" then "" else if arg[0] == '=' then arg[1..] else AfterEquals(arg[1..])
  }

  function Tokens(p: Piece): seq<string> {
    match p
    case Source(token) => [token]
    case Search(option) => option
    case Forced(_, _, tokens) => tokens
    case Other(argument) => [argument]
  }

  function PieceAt(reading: Reading, args: seq<string>): (r: Result<Piece>)
    requires args != []
    ensures r.Ok? ==> 1 <= |Tokens(r.value)| <= |args| && Tokens(r.value) == args[..|Tokens(r.value)|]
  {
    var arg := args[0];
    if Indirect(arg) then Err("unsupported indirect compiler input")
    else if reading.isSource(arg) then Ok(Source(arg))
    else if arg in SEARCH_FLAGS then
      if |args| < 2 then Err("missing include search operand") else Ok(Search(args[..2]))
    else if JoinedSearch(arg) then Ok(Search([arg]))
    else match ForcedFlag(arg)
      case None => Ok(Other(arg))
      case Some((flag, separate)) =>
        if separate then
          if |args| < 2 then Err("missing forced include operand")
          else Ok(Forced(flag, reading.absolute(args[1]), args[..2]))
        else Ok(Forced(flag, reading.absolute(AfterEquals(arg)), [arg]))
  }

  function Pieces(reading: Reading, args: seq<string>): (r: Result<seq<Piece>>)
    decreases |args|
  {
    if args == [] then Ok([]) else
    var first :- PieceAt(reading, args);
    var rest :- Pieces(reading, args[|Tokens(first)|..]);
    Ok([first] + rest)
  }

  predicate IsDefinitions(reading: Reading, p: Piece) {
    p.Forced? && p.flag == "-include" && reading.isDefinitions(p.path)
  }

  // ---- what the loop collects -----------------------------------------------------------------

  /** What the loop holds: the three lists, and how often the source was seen. */
  datatype Lists = Lists(parsed: Parsed, sources: nat)

  const NOTHING := Lists(Parsed([], [], []), 0)

  function Collect(reading: Reading, lists: Lists, p: Piece): (r: Result<Lists>) {
    var l := lists.parsed;
    match p
    case Source(_) => Ok(Lists(l.(common := l.common + [SOURCE_MARK]), lists.sources + 1))
    case Search(option) => Ok(lists.(parsed := l.(search := l.search + [option])))
    case Other(argument) => Ok(lists.(parsed := l.(common := l.common + [argument])))
    case Forced(_, path, tokens) =>
      if IsDefinitions(reading, p) then
        var quoted :- IncludePath(path);
        Ok(lists.(parsed := l.(definitions := l.definitions + [quoted])))
      else if l.definitions != [] then Err("Definitions precedes another forced input")
      else Ok(lists.(parsed := l.(common := l.common + tokens)))
  }

  function ParseFrom(reading: Reading, args: seq<string>, lists: Lists): (r: Result<Parsed>)
    decreases |args|
  {
    if args == [] then
      if lists.sources != 1 then Err("expected one original source operand") else Ok(lists.parsed)
    else
      var p :- PieceAt(reading, args);
      var next :- Collect(reading, lists, p);
      ParseFrom(reading, args[|Tokens(p)|..], next)
  }

  /** `_parse`, after the flags that only write outputs were stripped. */
  method Parse(reading: Reading, args: seq<string>) returns (r: Result<Parsed>)
    ensures r == ParseFrom(reading, args, NOTHING)
  {
    hide PieceAt, Collect;
    var lists, index := NOTHING, 0;
    assert args[0..] == args;
    while index < |args|
      invariant 0 <= index <= |args|
      invariant ParseFrom(reading, args, NOTHING) == ParseFrom(reading, args[index..], lists)
    {
      var p :- PieceAt(reading, args[index..]);
      lists :- Collect(reading, lists, p);
      assert args[index..][|Tokens(p)|..] == args[index + |Tokens(p)|..];
      index := index + |Tokens(p)|;
    }
    if lists.sources != 1 { return Err("expected one original source operand"); }
    return Ok(lists.parsed);
  }

  // ---- what the lists mean --------------------------------------------------------------------

  function CommonOf(reading: Reading, ps: seq<Piece>): seq<string> {
    if ps == [] then [] else
    CommonOf(reading, Init(ps)) +
      match Last(ps)
      case Source(_) => [SOURCE_MARK]
      case Search(_) => []
      case Forced(_, _, tokens) => if IsDefinitions(reading, Last(ps)) then [] else tokens
      case Other(argument) => [argument]
  }

  function SearchOf(ps: seq<Piece>): seq<seq<string>> {
    if ps == [] then [] else SearchOf(Init(ps)) + if Last(ps).Search? then [Last(ps).option] else []
  }

  function DefinitionsOf(reading: Reading, ps: seq<Piece>): seq<string> {
    if ps == [] then []
    else DefinitionsOf(reading, Init(ps)) + if IsDefinitions(reading, Last(ps)) then [Slashes(Last(ps).path)] else []
  }

  function SourcesOf(ps: seq<Piece>): nat {
    if ps == [] then 0 else SourcesOf(Init(ps)) + if Last(ps).Source? then 1 else 0
  }

  /** The Definitions headers come after every other forced input, and each can stand in an include line. */
  predicate DefinitionsLast(reading: Reading, ps: seq<Piece>) {
    && (forall j :: 0 <= j < |ps| && IsDefinitions(reading, ps[j]) ==> IncludePath(ps[j].path).Ok?)
    && forall j, k :: 0 <= j < k < |ps| && IsDefinitions(reading, ps[j]) && ps[k].Forced? ==> IsDefinitions(reading, ps[k])
  }

  predicate ListsAre(reading: Reading, ps: seq<Piece>, l: Lists) {
    && l == Lists(Parsed(CommonOf(reading, ps), SearchOf(ps), DefinitionsOf(reading, ps)), SourcesOf(ps))
    && DefinitionsLast(reading, ps)
  }

  lemma {:induction false} NoDefinitions(reading: Reading, ps: seq<Piece>)
    ensures DefinitionsOf(reading, ps) == [] <==> forall j :: 0 <= j < |ps| ==> !IsDefinitions(reading, ps[j])
  {
    if ps != [] {
      NoDefinitions(reading, Init(ps));
      assert forall j :: 0 <= j < |ps| - 1 ==> Init(ps)[j] == ps[j];
    }
  }

  lemma LastNext(reading: Reading, ps: seq<Piece>, p: Piece)
    requires DefinitionsLast(reading, ps)
    ensures DefinitionsLast(reading, ps + [p]) <==>
              (IsDefinitions(reading, p) ==> IncludePath(p.path).Ok?)
              && (p.Forced? && !IsDefinitions(reading, p) ==> DefinitionsOf(reading, ps) == [])
  {
    hide IsDefinitions;
    NoDefinitions(reading, ps);
    var qs := ps + [p];
    assert qs[|ps|] == p && forall j :: 0 <= j < |ps| ==> qs[j] == ps[j];
  }

  lemma CollectNext(reading: Reading, ps: seq<Piece>, l: Lists, p: Piece)
    requires ListsAre(reading, ps, l)
    ensures Collect(reading, l, p).Ok? <==> DefinitionsLast(reading, ps + [p])
    ensures Collect(reading, l, p).Ok? ==> ListsAre(reading, ps + [p], Collect(reading, l, p).value)
  {
    hide DefinitionsLast;
    LastNext(reading, ps, p);
    assert Init(ps + [p]) == ps;
  }

  lemma LastOfPrefix(reading: Reading, ps: seq<Piece>, rest: seq<Piece>)
    requires DefinitionsLast(reading, ps + rest)
    ensures DefinitionsLast(reading, ps)
  {
    hide IsDefinitions;
    assert forall j :: 0 <= j < |ps| ==> (ps + rest)[j] == ps[j];
  }

  lemma {:induction false} ParseFromMeans(reading: Reading, ps: seq<Piece>, args: seq<string>, l: Lists)
    requires ListsAre(reading, ps, l)
    ensures ParseFrom(reading, args, l).Ok? <==>
              Pieces(reading, args).Ok? && DefinitionsLast(reading, ps + Pieces(reading, args).value)
              && SourcesOf(ps + Pieces(reading, args).value) == 1
    ensures ParseFrom(reading, args, l).Ok? ==>
              var all := ps + Pieces(reading, args).value;
              ParseFrom(reading, args, l).value == Parsed(CommonOf(reading, all), SearchOf(all), DefinitionsOf(reading, all))
    decreases |args|
  {
    hide PieceAt, Collect, DefinitionsLast, CommonOf, SearchOf, DefinitionsOf, SourcesOf;
    if args == [] {
      assert ps + [] == ps;
    } else if PieceAt(reading, args).Ok? {
      var p := PieceAt(reading, args).value;
      var tail := args[|Tokens(p)|..];
      CollectNext(reading, ps, l, p);
      if Pieces(reading, tail).Ok? {
        assert ps + ([p] + Pieces(reading, tail).value) == (ps + [p]) + Pieces(reading, tail).value;
      }
      if Collect(reading, l, p).Ok? {
        ParseFromMeans(reading, ps + [p], tail, Collect(reading, l, p).value);
      } else if Pieces(reading, tail).Ok? && DefinitionsLast(reading, (ps + [p]) + Pieces(reading, tail).value) {
        LastOfPrefix(reading, ps + [p], Pieces(reading, tail).value);
      }
    }
  }

  /** A command is accepted exactly when it reads as pieces with one source and Definitions headers last;
      the three lists then hold its pieces in their order, each piece in one list. */
  lemma ParseMeans(reading: Reading, args: seq<string>)
    ensures var r := ParseFrom(reading, args, NOTHING);
            && (r.Ok? <==> Pieces(reading, args).Ok? && DefinitionsLast(reading, Pieces(reading, args).value)
                           && SourcesOf(Pieces(reading, args).value) == 1)
            && (r.Ok? ==> var ps := Pieces(reading, args).value;
                          r.value == Parsed(CommonOf(reading, ps), SearchOf(ps), DefinitionsOf(reading, ps)))
  {
    assert ListsAre(reading, [], NOTHING) by { NothingCollected(reading); }
    ParseFromMeans(reading, [], args, NOTHING);
    if Pieces(reading, args).Ok? { assert [] + Pieces(reading, args).value == Pieces(reading, args).value; }
  }

  lemma NothingCollected(reading: Reading)
    ensures ListsAre(reading, [], NOTHING)
  {
  }

  // ---- forced inputs in order -----------------------------------------------------------------

  function ForcedPaths(ps: seq<Piece>): seq<string> {
    if ps == [] then [] else ForcedPaths(Init(ps)) + if Last(ps).Forced? then [Last(ps).path] else []
  }

  function SharedForced(reading: Reading, ps: seq<Piece>): seq<string> {
    if ps == [] then []
    else SharedForced(reading, Init(ps)) + if Last(ps).Forced? && !IsDefinitions(reading, Last(ps)) then [Last(ps).path] else []
  }

  function DefinitionPaths(reading: Reading, ps: seq<Piece>): seq<string> {
    if ps == [] then []
    else DefinitionPaths(reading, Init(ps)) + if IsDefinitions(reading, Last(ps)) then [Last(ps).path] else []
  }

  lemma {:induction false} NoDefinitionPaths(reading: Reading, ps: seq<Piece>)
    requires forall j :: 0 <= j < |ps| ==> !IsDefinitions(reading, ps[j])
    ensures DefinitionPaths(reading, ps) == []
  {
    if ps != [] { NoDefinitionPaths(reading, Init(ps)); }
  }

  /** The compiler of an accepted original reads the shared forced inputs first and its Definitions headers after them,
      as the wrapper of the merged command does. */
  lemma {:induction false} SharedThenDefinitions(reading: Reading, ps: seq<Piece>)
    requires DefinitionsLast(reading, ps)
    ensures ForcedPaths(ps) == SharedForced(reading, ps) + DefinitionPaths(reading, ps)
  {
    hide IsDefinitions;
    if ps != [] {
      assert ps == Init(ps) + [Last(ps)];
      LastOfPrefix(reading, Init(ps), [Last(ps)]);
      SharedThenDefinitions(reading, Init(ps));
      if Last(ps).Forced? && !IsDefinitions(reading, Last(ps)) {
        forall j | 0 <= j < |ps| - 1 ensures !IsDefinitions(reading, Init(ps)[j]) { assert Init(ps)[j] == ps[j]; }
        NoDefinitionPaths(reading, Init(ps));
      }
      NotForcedIsNoDefinition(reading, Last(ps));
    }
  }

  lemma NotForcedIsNoDefinition(reading: Reading, p: Piece)
    ensures !p.Forced? ==> !IsDefinitions(reading, p)
  {
  }

  // ---- the merged command ---------------------------------------------------------------------

  function Replaced(args: seq<string>, wrapper: string): (r: seq<string>)
    ensures |r| == |args|
  {
    seq(|args|, k requires 0 <= k < |args| => if args[k] == SOURCE_MARK then wrapper else args[k])
  }

  /** The arguments of a candidate: the shared ones with the wrapper as source, and the united search options
      behind the compiler. */
  function CandidateArguments(common: seq<string>, search: seq<seq<string>>, wrapper: string): seq<string> {
    var args := Replaced(common, wrapper);
    if args == [] then Flatten(search) else args[..1] + Flatten(search) + args[1..]
  }

  /** The pieces every original of the group shares, reading the wrapper instead of its source. */
  function SharedPieces(reading: Reading, ps: seq<Piece>, wrapper: string): seq<Piece> {
    if ps == [] then [] else
    SharedPieces(reading, Init(ps), wrapper) +
      match Last(ps)
      case Source(_) => [Source(wrapper)]
      case Search(_) => []
      case Forced(_, _, _) => if IsDefinitions(reading, Last(ps)) then [] else [Last(ps)]
      case Other(_) => [Last(ps)]
  }

  function SearchPieces(search: seq<seq<string>>): (r: seq<Piece>)
    ensures |r| == |search|
  {
    seq(|search|, k requires 0 <= k < |search| => Search(search[k]))
  }

  function AllTokens(ps: seq<Piece>): seq<string> {
    if ps == [] then [] else AllTokens(Init(ps)) + Tokens(Last(ps))
  }

  /** Reading these tokens gives this piece, whatever follows. */
  predicate Fits(reading: Reading, p: Piece) {
    && Tokens(p) != [] && !Indirect(Tokens(p)[0])
    && var head := Tokens(p)[0];
       match p
       case Source(token) => reading.isSource(token)
       case Search(option) =>
         !reading.isSource(head) && (if head in SEARCH_FLAGS then |option| == 2 else |option| == 1 && JoinedSearch(head))
       case Forced(flag, path, tokens) =>
         && !reading.isSource(head) && head !in SEARCH_FLAGS && !JoinedSearch(head)
         && |tokens| <= 2 && ForcedFlag(head) == Some((flag, |tokens| == 2))
         && path == reading.absolute(if |tokens| == 2 then tokens[1] else AfterEquals(head))
       case Other(_) => !reading.isSource(head) && head !in SEARCH_FLAGS && !JoinedSearch(head) && ForcedFlag(head) == None
  }

  lemma PieceFits(reading: Reading, args: seq<string>)
    requires args != [] && PieceAt(reading, args).Ok?
    ensures Fits(reading, PieceAt(reading, args).value)
  {
    hide Indirect, JoinedSearch, ForcedFlag, AfterEquals, SEARCH_FLAGS;
    assert args[..|Tokens(PieceAt(reading, args).value)|][0] == args[0];
  }

  lemma FitsReads(reading: Reading, p: Piece, tail: seq<string>)
    requires Fits(reading, p)
    ensures PieceAt(reading, Tokens(p) + tail) == Ok(p)
  {
    hide Indirect, JoinedSearch, ForcedFlag, AfterEquals, SEARCH_FLAGS;
    var args := Tokens(p) + tail;
    assert args[0] == Tokens(p)[0] && args[..|Tokens(p)|] == Tokens(p);
  }

  lemma {:induction false} PiecesFit(reading: Reading, args: seq<string>)
    requires Pieces(reading, args).Ok?
    ensures forall p :: p in Pieces(reading, args).value ==> Fits(reading, p)
    ensures AllTokens(Pieces(reading, args).value) == args
    decreases |args|
  {
    hide PieceAt, Fits, Tokens;
    if args != [] {
      var first := PieceAt(reading, args).value;
      var tail := args[|Tokens(first)|..];
      PieceFits(reading, args);
      PiecesFit(reading, tail);
      TokensOfCons(first, Pieces(reading, tail).value);
      assert args == args[..|Tokens(first)|] + tail;
    }
  }

  lemma NoTokens()
    ensures AllTokens([]) == []
  {
  }

  lemma TokensSnoc(ps: seq<Piece>)
    requires ps != []
    ensures AllTokens(ps) == AllTokens(Init(ps)) + Tokens(Last(ps))
  {
  }

  lemma {:induction false} TokensAppend(a: seq<Piece>, b: seq<Piece>)
    ensures AllTokens(a + b) == AllTokens(a) + AllTokens(b)
  {
    hide Tokens, AllTokens;
    if b == [] {
      assert a + b == a;
      NoTokens();
    } else {
      TokensAppend(a, Init(b));
      TokensSnoc(a + b);
      TokensSnoc(b);
      assert Init(a + b) == a + Init(b) && Last(a + b) == Last(b);
      Associates(AllTokens(a), AllTokens(Init(b)), Tokens(Last(b)));
    }
  }

  lemma TokensOfCons(first: Piece, rest: seq<Piece>)
    ensures AllTokens([first] + rest) == Tokens(first) + AllTokens(rest)
  {
    TokensAppend([first], rest);
    assert Init([first]) == [];
  }

  lemma {:induction false} FittingReadBack(reading: Reading, ps: seq<Piece>)
    requires forall p :: p in ps ==> Fits(reading, p)
    ensures Pieces(reading, AllTokens(ps)) == Ok(ps)
    decreases |ps|
  {
    hide PieceAt, Fits, Tokens;
    if ps != [] {
      var first, rest := ps[0], ps[1..];
      assert ps == [first] + rest;
      FittingReadBack(reading, rest);
      TokensOfCons(first, rest);
      FitsReads(reading, first, AllTokens(rest));
      FitsHasTokens(reading, first);
      assert (Tokens(first) + AllTokens(rest))[|Tokens(first)|..] == AllTokens(rest);
    }
  }

  lemma FitsHasTokens(reading: Reading, p: Piece)
    requires Fits(reading, p)
    ensures Tokens(p) != []
  {
  }

  /** The merged command is read in the originals' directory, with the wrapper as the one source. */
  ghost predicate ReadsWrapper(reading: Reading, merged: Reading, wrapper: string, tokens: seq<string>) {
    && (forall path :: merged.absolute(path) == reading.absolute(path))
    && merged.isSource(wrapper) && !Indirect(wrapper)
    && forall t :: t in tokens ==> !merged.isSource(t) && t != SOURCE_MARK
  }

  lemma StillFits(reading: Reading, merged: Reading, wrapper: string, tokens: seq<string>, p: Piece)
    requires Fits(reading, p) && !p.Source? && ReadsWrapper(reading, merged, wrapper, tokens)
    requires forall t :: t in Tokens(p) ==> t in tokens
    ensures Fits(merged, p)
  {
    hide Indirect, JoinedSearch, ForcedFlag, AfterEquals, SEARCH_FLAGS;
    assert Tokens(p)[0] in Tokens(p);
  }

  lemma WrapperFits(reading: Reading, merged: Reading, wrapper: string, tokens: seq<string>)
    requires ReadsWrapper(reading, merged, wrapper, tokens)
    ensures Fits(merged, Source(wrapper))
  {
    hide Indirect;
  }

  /** Outside the source operand, these pieces use only these tokens. */
  predicate Uses(ps: seq<Piece>, tokens: seq<string>) {
    forall p, t :: p in ps && !p.Source? && t in Tokens(p) ==> t in tokens
  }

  lemma {:induction false} SharedFit(reading: Reading, merged: Reading, wrapper: string, tokens: seq<string>, ps: seq<Piece>)
    requires ReadsWrapper(reading, merged, wrapper, tokens) && Uses(ps, tokens)
    requires forall p :: p in ps ==> Fits(reading, p)
    ensures forall p :: p in SharedPieces(reading, ps, wrapper) ==> Fits(merged, p)
  {
    hide Fits, ReadsWrapper, Tokens;
    if ps != [] {
      assert ps == Init(ps) + [Last(ps)];
      SharedFit(reading, merged, wrapper, tokens, Init(ps));
      if Last(ps).Source? {
        WrapperFits(reading, merged, wrapper, tokens);
      } else {
        StillFits(reading, merged, wrapper, tokens, Last(ps));
      }
    }
  }

  lemma ReplacedAppend(a: seq<string>, b: seq<string>, wrapper: string)
    ensures Replaced(a + b, wrapper) == Replaced(a, wrapper) + Replaced(b, wrapper)
  {
  }

  lemma NothingReplaced(a: seq<string>, wrapper: string)
    requires SOURCE_MARK !in a
    ensures Replaced(a, wrapper) == a
  {
  }

  lemma {:induction false} SharedTokens(reading: Reading, ps: seq<Piece>, wrapper: string, tokens: seq<string>)
    requires Uses(ps, tokens) && SOURCE_MARK !in tokens
    ensures AllTokens(SharedPieces(reading, ps, wrapper)) == Replaced(CommonOf(reading, ps), wrapper)
  {
    hide IsDefinitions, Replaced;
    if ps == [] {
      NothingReplaced([], wrapper);
    } else {
      var p, before := Last(ps), SharedPieces(reading, Init(ps), wrapper);
      assert ps == Init(ps) + [p];
      SharedTokens(reading, Init(ps), wrapper, tokens);
      if p.Source? {
        ReplacedAppend(CommonOf(reading, Init(ps)), [SOURCE_MARK], wrapper);
        MarkReplaced(wrapper);
        assert Init(before + [Source(wrapper)]) == before;
      } else if !p.Search? && !IsDefinitions(reading, p) {
        assert forall t :: t in Tokens(p) ==> t in tokens;
        ReplacedAppend(CommonOf(reading, Init(ps)), Tokens(p), wrapper);
        NothingReplaced(Tokens(p), wrapper);
        assert Init(before + [p]) == before;
      } else {
        assert SharedPieces(reading, ps, wrapper) == before by { Dropped(reading, ps, wrapper); }
        assert CommonOf(reading, ps) == CommonOf(reading, Init(ps)) by { Dropped(reading, ps, wrapper); }
      }
    }
  }

  lemma MarkReplaced(wrapper: string)
    ensures Replaced([SOURCE_MARK], wrapper) == [wrapper]
  {
  }

  lemma Dropped(reading: Reading, ps: seq<Piece>, wrapper: string)
    requires ps != [] && (Last(ps).Search? || IsDefinitions(reading, Last(ps)))
    ensures SharedPieces(reading, ps, wrapper) == SharedPieces(reading, Init(ps), wrapper)
    ensures CommonOf(reading, ps) == CommonOf(reading, Init(ps))
  {
    assert SharedPieces(reading, Init(ps), wrapper) + [] == SharedPieces(reading, Init(ps), wrapper);
    assert CommonOf(reading, Init(ps)) + [] == CommonOf(reading, Init(ps));
  }

  lemma {:induction false} SearchTokens(search: seq<seq<string>>)
    ensures AllTokens(SearchPieces(search)) == Flatten(search)
  {
    if search != [] {
      SearchTokens(Init(search));
      assert Init(SearchPieces(search)) == SearchPieces(Init(search));
    }
  }

  lemma {:induction false} CommonOfCons(reading: Reading, p: Piece, rest: seq<Piece>)
    requires p.Other?
    ensures CommonOf(reading, [p] + rest) == [p.argument] + CommonOf(reading, rest)
  {
    hide IsDefinitions;
    if rest == [] {
      assert [p] + rest == [p] && Init([p]) == [];
    } else {
      CommonOfCons(reading, p, Init(rest));
      assert Init([p] + rest) == [p] + Init(rest);
    }
  }

  /** What the compiler reads in a merged command: the same compiler, the united search options, and then every other
      piece of the originals' command in its order, with the wrapper for the source and without the Definitions headers
      that the wrapper includes itself. */
  lemma CandidateReads(reading: Reading, merged: Reading, args: seq<string>, ps: seq<Piece>, search: seq<seq<string>>,
                       wrapper: string, tokens: seq<string>)
    requires ParseFrom(reading, args, NOTHING).Ok? && Pieces(reading, args) == Ok(ps)
    requires ps != [] && ps[0].Other? && Uses(ps, tokens)
    requires ReadsWrapper(reading, merged, wrapper, tokens)
    requires forall option :: option in search ==> Fits(merged, Search(option))
    ensures var parsed := ParseFrom(reading, args, NOTHING).value;
            && parsed.common != []
            && Pieces(merged, CandidateArguments(parsed.common, search, wrapper))
               == Ok([ps[0]] + SearchPieces(search) + SharedPieces(reading, ps[1..], wrapper))
  {
    hide Fits, ParseFrom, DefinitionsLast, SourcesOf, Pieces, CommonOf, SharedPieces, Replaced, AllTokens, ReadsWrapper;
    ParseMeans(reading, args);
    PiecesFit(reading, args);
    var rest := ps[1..];
    assert ps == [ps[0]] + rest;
    CommonOfCons(reading, ps[0], rest);
    var whole := [ps[0]] + SearchPieces(search) + SharedPieces(reading, rest, wrapper);
    SharedFit(reading, merged, wrapper, tokens, rest);
    StillFits(reading, merged, wrapper, tokens, ps[0]);
    assert forall p :: p in whole ==> Fits(merged, p);
    FittingReadBack(merged, whole);
    MergedTokens(reading, merged, ps, search, wrapper, tokens);
  }

  lemma MergedTokens(reading: Reading, merged: Reading, ps: seq<Piece>, search: seq<seq<string>>, wrapper: string,
                     tokens: seq<string>)
    requires ps != [] && ps[0].Other? && Uses(ps, tokens) && ReadsWrapper(reading, merged, wrapper, tokens)
    ensures CommonOf(reading, ps) != []
    ensures AllTokens([ps[0]] + SearchPieces(search) + SharedPieces(reading, ps[1..], wrapper))
            == CandidateArguments(CommonOf(reading, ps), search, wrapper)
  {
    hide CommonOf, SharedPieces, AllTokens, Flatten;
    var rest := ps[1..];
    assert ps == [ps[0]] + rest;
    CommonOfCons(reading, ps[0], rest);
    assert SOURCE_MARK !in tokens;
    SharedTokens(reading, rest, wrapper, tokens);
    SearchTokens(search);
    TokensAppend([ps[0]] + SearchPieces(search), SharedPieces(reading, rest, wrapper));
    TokensOfCons(ps[0], SearchPieces(search));
    var common := CommonOf(reading, ps);
    assert common[0] in Tokens(ps[0]);
    assert Replaced(common, wrapper)[..1] == Tokens(ps[0]);
    assert Replaced(common, wrapper)[1..] == Replaced(common[1..], wrapper);
  }
}
