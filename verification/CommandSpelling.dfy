/** The spellings that `_parse` knows, written out. */
module CommandSpelling {
  import opened Prelude
  import opened OrderedUnity
  import opened OrderedCommand

  lemma {:induction false} BehindEquals(flag: string, path: string)
    requires '=' !in flag
    ensures AfterEquals(flag + "=" + path) == path
  {
    var arg := flag + "=" + path;
    if flag == "" {
      assert arg[0] == '=' && arg[1..] == path;
    } else {
      assert arg[0] == flag[0] && arg[0] in flag;
      assert arg[1..] == flag[1..] + "=" + path;
      BehindEquals(flag[1..], path);
    }
  }

  lemma StartsMeans(arg: string, prefix: string)
    ensures StartsWith(arg, prefix) <==> prefix <= arg
  {
  }

  lemma StartsSpelled(arg: string)
    ensures forall prefix :: StartsWith(arg, prefix) <==> prefix <= arg
  {
    forall prefix ensures StartsWith(arg, prefix) <==> prefix <= arg { StartsMeans(arg, prefix); }
  }

  /** An argument that would bring in arguments or files that are not seen. */
  lemma IndirectSpelled(arg: string)
    ensures Indirect(arg) <==>
              || "@" <= arg || arg == "--config" || arg == "-ivfsoverlay" || "--config=" <= arg || "-ivfsoverlay=" <= arg
  {
    StartsSpelled(arg);
  }

  /** The include search options whose directory is the next argument. */
  lemma SearchSpelled(arg: string)
    ensures arg in SEARCH_FLAGS <==>
              || arg == "-I" || arg == "-isystem" || arg == "-iquote" || arg == "-idirafter" || arg == "-F"
              || arg == "-iframework"
  {
  }

  /** The include search options that hold their directory. */
  lemma JoinedSpelled(arg: string)
    ensures JoinedSearch(arg) <==>
              || ("-I" <= arg && arg != "-I") || ("-F" <= arg && arg != "-F") || "-isystem=" <= arg || "-iquote=" <= arg
              || "-idirafter=" <= arg || "-F=" <= arg || "-iframework=" <= arg
  {
    StartsSpelled(arg);
  }

  /** A forced include names its file in the next argument or behind an equals sign. */
  lemma ForcedSpelled(arg: string)
    ensures arg == "-include-pch" || arg == "-include" || arg == "-imacros" <==> ForcedFlag(arg) == Some((arg, true))
    ensures ForcedFlag(arg) == Some(("-include-pch", false)) <==> "-include-pch=" <= arg
    ensures ForcedFlag(arg) == Some(("-include", false)) <==> "-include=" <= arg
    ensures ForcedFlag(arg) == Some(("-imacros", false)) <==> "-imacros=" <= arg
    ensures ForcedFlag(arg).Some? && ForcedFlag(arg).value.1 ==> ForcedFlag(arg).value.0 == arg
    ensures ForcedFlag(arg).Some? ==> ForcedFlag(arg).value.0 in {"-include-pch", "-include", "-imacros"}
  {
    StartsSpelled(arg);
    if "-include-pch=" <= arg { assert arg[8] == '-'; }
    if "-include=" <= arg { assert arg[8] == '='; }
    if "-imacros=" <= arg { assert arg[2] == 'm'; }
  }

  lemma NotSearch(arg: string)
    requires |arg| >= 3 && arg[0] == '-' && arg[1] == 'i' && (arg[2] == 'n' || arg[2] == 'm')
    ensures !Indirect(arg) && arg !in SEARCH_FLAGS && !JoinedSearch(arg)
  {
    hide Indirect, SEARCH_FLAGS, JoinedSearch;
    IndirectSpelled(arg);
    SearchSpelled(arg);
    JoinedSpelled(arg);
  }

  lemma ForcedBegins(flag: string, path: string)
    requires flag in {"-include-pch", "-include", "-imacros"}
    ensures flag[..2] == "-i" && (flag[2] == 'n' || flag[2] == 'm') && '=' !in flag
    ensures ForcedFlag(flag) == Some((flag, true))
  {
    hide ForcedFlag;
    ForcedSpelled(flag);
  }

  lemma JoinedForced(flag: string, path: string)
    requires flag in {"-include-pch", "-include", "-imacros"}
    ensures ForcedFlag(flag + "=" + path) == Some((flag, false))
  {
    hide ForcedFlag;
    var arg := flag + "=" + path;
    ForcedSpelled(arg);
    assert flag + "=" <= arg;
    if flag == "-include-pch" {
      assert "-include-pch=" <= arg;
    } else if flag == "-include" {
      assert "-include=" <= arg;
    } else {
      assert "-imacros=" <= arg;
    }
  }

  /** A search flag takes the next argument along, and a lone one is refused. */
  lemma SearchPiece(reading: Reading, flag: string, directory: string, tail: seq<string>)
    requires flag in {"-I", "-isystem", "-iquote", "-idirafter", "-F", "-iframework"} && !reading.isSource(flag)
    ensures PieceAt(reading, [flag, directory] + tail) == Ok(Search([flag, directory]))
    ensures PieceAt(reading, [flag]) == Err("missing include search operand")
  {
    hide Indirect;
    SearchSpelled(flag);
    IndirectSpelled(flag);
    assert flag[0] == '-' && flag[1] != '-' && (|flag| > 2 ==> flag[2] != 'v');
    assert !Indirect(flag);
    FitsReads(reading, Search([flag, directory]), tail);
  }

  /** A forced include is read with its path made absolute, whichever way it is spelled; a lone flag is refused. */
  lemma ForcedPiece(reading: Reading, flag: string, path: string, tail: seq<string>)
    requires flag in {"-include-pch", "-include", "-imacros"}
    requires !reading.isSource(flag) && !reading.isSource(flag + "=" + path)
    ensures PieceAt(reading, [flag, path] + tail) == Ok(Forced(flag, reading.absolute(path), [flag, path]))
    ensures PieceAt(reading, [flag + "=" + path] + tail) == Ok(Forced(flag, reading.absolute(path), [flag + "=" + path]))
    ensures PieceAt(reading, [flag]) == Err("missing forced include operand")
  {
    hide Indirect, SEARCH_FLAGS, JoinedSearch, ForcedFlag, AfterEquals;
    var joined := flag + "=" + path;
    ForcedBegins(flag, path);
    JoinedForced(flag, path);
    BehindEquals(flag, path);
    assert joined[..3] == flag[..3];
    NotSearch(flag);
    NotSearch(joined);
    FitsReads(reading, Forced(flag, reading.absolute(path), [flag, path]), tail);
    FitsReads(reading, Forced(flag, reading.absolute(path), [joined]), tail);
  }

  /** After the compiler and the source, an included Definitions header goes to the wrapper, and any other forced include
      stays with the shared arguments. */
  lemma ForcedParse(reading: Reading, compiler: string, source: string, flag: string, path: string)
    requires OrderedCommand.Fits(reading, Other(compiler)) && reading.isSource(source) && !Indirect(source)
    requires flag in {"-include-pch", "-include", "-imacros"}
    requires !reading.isSource(flag) && !reading.isSource(flag + "=" + path)
    ensures ParseFrom(reading, [compiler, source, flag, path], NOTHING)
            == if flag == "-include" && reading.isDefinitions(reading.absolute(path)) then
                 match IncludePath(reading.absolute(path))
                 case Ok(quoted) => Ok(Parsed([compiler, "<SOURCE>"], [], [quoted]))
                 case Err(reason) => Err(reason)
               else Ok(Parsed([compiler, "<SOURCE>", flag, path], [], []))
  {
    hide PieceAt, IncludePath, Indirect;
    var args := [compiler, source, flag, path];
    FitsReads(reading, Other(compiler), args[1..]);
    assert args == [compiler] + args[1..];
    FitsReads(reading, Source(source), args[2..]);
    assert args[1..] == [source] + args[2..];
    ForcedPiece(reading, flag, path, []);
    assert args[2..] == [flag, path] + [] && args[2..] == [flag, path];
    var first := Lists(Parsed([compiler], [], []), 0);
    var second := Lists(Parsed([compiler, "<SOURCE>"], [], []), 1);
    assert Collect(reading, NOTHING, Other(compiler)) == Ok(first) by { assert [] + [compiler] == [compiler]; }
    assert Collect(reading, first, Source(source)) == Ok(second) by { assert [compiler] + ["<SOURCE>"] == [compiler, "<SOURCE>"]; }
    assert args[1..][1..] == args[2..];
    assert ParseFrom(reading, args, NOTHING) == ParseFrom(reading, args[1..], first);
    assert ParseFrom(reading, args[1..], first) == ParseFrom(reading, args[2..], second);
    LastPiece(reading, second, flag, path);
    assert ParseFrom(reading, args, NOTHING) == ParseFrom(reading, [flag, path], second);
    assert [compiler, "<SOURCE>"] + [flag, path] == [compiler, "<SOURCE>", flag, path];
  }

  lemma LastPiece(reading: Reading, lists: Lists, flag: string, path: string)
    requires lists.sources == 1 && lists.parsed.definitions == []
    requires PieceAt(reading, [flag, path]) == Ok(Forced(flag, reading.absolute(path), [flag, path]))
    ensures ParseFrom(reading, [flag, path], lists)
            == if flag == "-include" && reading.isDefinitions(reading.absolute(path)) then
                 match IncludePath(reading.absolute(path))
                 case Ok(quoted) => Ok(lists.parsed.(definitions := [quoted]))
                 case Err(reason) => Err(reason)
               else Ok(lists.parsed.(common := lists.parsed.common + [flag, path]))
  {
    hide PieceAt, IncludePath;
    assert [flag, path][2..] == [];
    if IncludePath(reading.absolute(path)).Ok? {
      assert [] + [IncludePath(reading.absolute(path)).value] == [IncludePath(reading.absolute(path)).value];
    }
  }
}
