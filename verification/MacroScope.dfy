/** What an ordered wrapper does to macros: each original's source sees its own Definitions, and nothing leaks. */
module MacroScope {
  import opened Prelude

  datatype Macro = Macro(isFunction: bool, replacement: string)

  type Macros = map<string, Macro>

  // ---- the preprocessor -----------------------------------------------------------------------

  datatype Event = Define(name: string, macro: Macro) | Undef(name: string) | Push(name: string) | Pop(name: string)

  /** One macro name: its current definition, and the definitions `push_macro` saved. */
  datatype Cell = Cell(value: Option<Macro>, saved: seq<Option<Macro>>)

  datatype State = State(macros: Macros, saved: map<string, seq<Option<Macro>>>)

  function Lookup(macros: Macros, name: string): Option<Macro> {
    if name in macros then Some(macros[name]) else None
  }

  function View(s: State, name: string): Cell {
    Cell(Lookup(s.macros, name), if name in s.saved then s.saved[name] else [])
  }

  function Store(s: State, name: string, cell: Cell): State {
    State(match cell.value case Some(m) => s.macros[name := m] case None => s.macros - {name},
          s.saved[name := cell.saved])
  }

  /** Pushing an undefined macro saves that it is undefined; popping with nothing saved does nothing. */
  function StepAt(cell: Cell, e: Event): Cell {
    match e
    case Define(_, macro) => cell.(value := Some(macro))
    case Undef(_) => cell.(value := None)
    case Push(_) => cell.(saved := cell.saved + [cell.value])
    case Pop(_) => if cell.saved == [] then cell else Cell(Last(cell.saved), Init(cell.saved))
  }

  function Step(s: State, e: Event): State {
    Store(s, e.name, StepAt(View(s, e.name), e))
  }

  function Run(s: State, es: seq<Event>): State
    decreases es
  {
    if es == [] then s else Run(Step(s, es[0]), es[1..])
  }

  function RunAt(cell: Cell, es: seq<Event>, name: string): Cell
    decreases es
  {
    if es == [] then cell else RunAt(if es[0].name == name then StepAt(cell, es[0]) else cell, es[1..], name)
  }

  lemma StepView(s: State, e: Event, name: string)
    ensures View(Step(s, e), name) == if e.name == name then StepAt(View(s, name), e) else View(s, name)
  {
  }

  /** Names do not interfere: the whole run, seen at one name, is the run of that name. */
  lemma {:induction false} RunView(s: State, es: seq<Event>, name: string)
    ensures View(Run(s, es), name) == RunAt(View(s, name), es, name)
    decreases es
  {
    hide View, Step, StepAt;
    if es != [] {
      StepView(s, es[0], name);
      RunView(Step(s, es[0]), es[1..], name);
    }
  }

  // ---- sources --------------------------------------------------------------------------------

  /** Each pop of this name undoes a push from the same events, and no push is left over. */
  predicate Balanced(es: seq<Event>, name: string, depth: nat) {
    if es == [] then depth == 0
    else if es[0] == Push(name) then Balanced(es[1..], name, depth + 1)
    else if es[0] == Pop(name) then depth > 0 && Balanced(es[1..], name, depth - 1)
    else Balanced(es[1..], name, depth)
  }

  lemma {:induction false} BalancedRestores(cell: Cell, es: seq<Event>, name: string, below: nat)
    requires below <= |cell.saved| && Balanced(es, name, |cell.saved| - below)
    ensures RunAt(cell, es, name).saved == cell.saved[..below]
    decreases es
  {
    if es == [] {
      assert cell.saved[..below] == cell.saved;
    } else if es[0].name == name {
      var next := StepAt(cell, es[0]);
      BalancedRestores(next, es[1..], name, below);
      assert next.saved[..below] == cell.saved[..below];
    } else {
      BalancedRestores(cell, es[1..], name, below);
    }
  }

  /** What a source does may depend on the macros it finds, as with conditionals and include guards. */
  type Source = Macros -> seq<Event>

  ghost predicate WellBehaved(source: Source) {
    forall macros, name :: Balanced(source(macros), name, 0)
  }

  // ---- Definitions headers --------------------------------------------------------------------

  /** A logical line of a Definitions header, after splicing and comment removal. */
  datatype HeaderLine =
    | DefineLine(name: string, macro: Macro)
    | UndefLine(name: string, rest: string)
    | OtherDirective
    | Content
    | Blank

  type Summary = map<string, Option<Macro>>

  /** The final state of every name the header touches, unless it holds anything but plain directives. */
  function Summarize(lines: seq<HeaderLine>, state: Summary): (r: Result<Summary>) {
    if lines == [] then Ok(state) else
    match lines[0]
    case DefineLine(name, macro) => Summarize(lines[1..], state[name := Some(macro)])
    case UndefLine(name, rest) =>
      if rest != "" then Err("unsupported undef directive") else Summarize(lines[1..], state[name := None])
    case OtherDirective => Err("unsupported Definitions directive")
    case Content => Err("unsupported non-directive Definitions content")
    case Blank => Summarize(lines[1..], state)
  }

  /** `_definitions`. */
  method Definitions(lines: seq<HeaderLine>) returns (r: Result<Summary>)
    ensures r == Summarize(lines, map[])
  {
    var state: Summary := map[];
    for k := 0 to |lines|
      invariant Summarize(lines, map[]) == Summarize(lines[k..], state)
    {
      assert lines[k..][1..] == lines[k + 1..];
      match lines[k] {
        case DefineLine(name, macro) => state := state[name := Some(macro)];
        case UndefLine(name, rest) =>
          if rest != "" { return Err("unsupported undef directive"); }
          state := state[name := None];
        case OtherDirective => return Err("unsupported Definitions directive");
        case Content => return Err("unsupported non-directive Definitions content");
        case Blank =>
      }
    }
    return Ok(state);
  }

  /** What the preprocessor does with such a header. */
  function Events(lines: seq<HeaderLine>): seq<Event> {
    if lines == [] then [] else
    match lines[0]
    case DefineLine(name, macro) => [Define(name, macro)] + Events(lines[1..])
    case UndefLine(name, _) => [Undef(name)] + Events(lines[1..])
    case _ => Events(lines[1..])
  }

  function Overlay(summary: Summary, name: string, value: Option<Macro>): Option<Macro> {
    if name in summary then summary[name] else value
  }

  lemma {:induction false} SummaryFromState(lines: seq<HeaderLine>, state: Summary, cell: Cell, name: string)
    requires Summarize(lines, state).Ok?
    ensures RunAt(Cell(Overlay(state, name, cell.value), cell.saved), Events(lines), name)
            == Cell(Overlay(Summarize(lines, state).value, name, cell.value), cell.saved)
    decreases lines
  {
    if lines != [] {
      if lines[0].DefineLine? {
        SummaryFromState(lines[1..], state[lines[0].name := Some(lines[0].macro)], cell, name);
      } else if lines[0].UndefLine? {
        SummaryFromState(lines[1..], state[lines[0].name := None], cell, name);
      } else if lines[0].Blank? {
        SummaryFromState(lines[1..], state, cell, name);
      }
    }
  }

  /** The summary of an accepted header says exactly what including it does, from any state. */
  lemma SummaryIsEffect(lines: seq<HeaderLine>, cell: Cell, name: string)
    requires Summarize(lines, map[]).Ok?
    ensures RunAt(cell, Events(lines), name)
            == Cell(Overlay(Summarize(lines, map[]).value, name, cell.value), cell.saved)
  {
    SummaryFromState(lines, map[], cell, name);
  }

  // ---- the wrapper ----------------------------------------------------------------------------

  datatype File = Header(lines: seq<HeaderLine>) | Unit(source: Source)

  datatype Line = Comment(text: string) | PushMacro(name: string) | PopMacro(name: string) | Include(path: string)

  type Files = map<string, File>

  /** One line of the wrapper, given the files its includes name. */
  function Exec(files: Files, s: State, line: Line): State {
    match line
    case Comment(_) => s
    case PushMacro(name) => Step(s, Push(name))
    case PopMacro(name) => Step(s, Pop(name))
    case Include(path) =>
      if path !in files then s else
      match files[path]
      case Header(lines) => Run(s, Events(lines))
      case Unit(source) => Run(s, source(s.macros))
  }

  function ExecAll(files: Files, s: State, lines: seq<Line>): State {
    if lines == [] then s else Exec(files, ExecAll(files, s, Init(lines)), Last(lines))
  }

  lemma {:induction false} ExecAppend(files: Files, s: State, a: seq<Line>, b: seq<Line>)
    ensures ExecAll(files, s, a + b) == ExecAll(files, ExecAll(files, s, a), b)
  {
    if b == [] {
      assert a + b == a;
    } else {
      ExecAppend(files, s, a, Init(b));
      assert Init(a + b) == a + Init(b);
    }
  }

  /** An original of one candidate: its source file and its Definitions headers, in command-line order. */
  datatype Original = Original(source: string, definitions: seq<string>)

  function Pushes(touched: seq<string>): seq<Line> {
    if touched == [] then [] else Pushes(Init(touched)) + [PushMacro(Last(touched))]
  }

  /** The pops in the opposite order of the pushes. */
  function Pops(touched: seq<string>): seq<Line> {
    if touched == [] then [] else [PopMacro(Last(touched))] + Pops(Init(touched))
  }

  function Includes(paths: seq<string>): seq<Line> {
    if paths == [] then [] else Includes(Init(paths)) + [Include(Last(paths))]
  }

  /** The lines of one original up to its source, and from the source on. */
  function Prologue(o: Original, touched: seq<string>): seq<Line> {
    [Comment("// Original Unity: " + o.source)] + Pushes(touched) + Includes(o.definitions)
  }

  function Epilogue(o: Original, touched: seq<string>): seq<Line> {
    [Include(o.source)] + Pops(touched)
  }

  const HEADING := Comment("// Ordered Unity candidate only; semantic admission is required.")

  function Wrapper(originals: seq<Original>, touched: seq<string>): seq<Line> {
    if originals == [] then [HEADING]
    else Wrapper(Init(originals), touched) + Prologue(Last(originals), touched) + Epilogue(Last(originals), touched)
  }

  /** What the Definitions of one original amount to: later headers win, and a refused header refuses all. */
  function States(headers: string -> Result<Summary>, definitions: seq<string>): (r: Result<Summary>) {
    if definitions == [] then Ok(map[]) else
    var before :- States(headers, Init(definitions));
    var last :- headers(Last(definitions));
    Ok(before + last)
  }

  /** These headers are as the producer read them. */
  predicate Accepted(files: Files, headers: string -> Result<Summary>, paths: seq<string>) {
    forall p :: p in paths ==>
      p in files && files[p].Header? && headers(p).Ok? && Summarize(files[p].lines, map[]) == headers(p)
  }

  /** Every source keeps its own pushes and pops in balance, and all touched names are scoped. */
  ghost predicate Consistent(files: Files, headers: string -> Result<Summary>, originals: seq<Original>, touched: seq<string>) {
    && Distinct(touched)
    && forall o :: o in originals ==>
         o.source in files && files[o.source].Unit? && WellBehaved(files[o.source].source)
         && Accepted(files, headers, o.definitions)
  }

  lemma {:induction false} PushesView(files: Files, s: State, touched: seq<string>, name: string)
    requires Distinct(touched)
    ensures View(ExecAll(files, s, Pushes(touched)), name) ==
              if name in touched then StepAt(View(s, name), Push(name)) else View(s, name)
  {
    hide View, Step, StepAt;
    if touched != [] {
      assert Distinct(Init(touched)) && touched == Init(touched) + [Last(touched)];
      PushesView(files, s, Init(touched), name);
      var before := Pushes(Init(touched));
      assert Init(before + [PushMacro(Last(touched))]) == before;
      StepView(ExecAll(files, s, before), Push(Last(touched)), name);
      DistinctSnoc(Init(touched), Last(touched));
    }
  }

  lemma {:induction false} PopsView(files: Files, s: State, touched: seq<string>, name: string)
    requires Distinct(touched)
    ensures View(ExecAll(files, s, Pops(touched)), name) ==
              if name in touched then StepAt(View(s, name), Pop(name)) else View(s, name)
    decreases touched
  {
    hide View, Step, StepAt;
    if touched != [] {
      assert touched == Init(touched) + [Last(touched)];
      DistinctSnoc(Init(touched), Last(touched));
      var first := Exec(files, s, PopMacro(Last(touched)));
      ExecAppend(files, s, [PopMacro(Last(touched))], Pops(Init(touched)));
      OneLine(files, s, PopMacro(Last(touched)));
      StepView(s, Pop(Last(touched)), name);
      PopsView(files, first, Init(touched), name);
    }
  }

  lemma OneLine(files: Files, s: State, line: Line)
    ensures ExecAll(files, s, [line]) == Exec(files, s, line)
  {
    assert Init([line]) == [];
    assert ExecAll(files, s, []) == s;
  }

  lemma {:induction false} IncludesView(files: Files, headers: string -> Result<Summary>, s: State, paths: seq<string>, name: string)
    requires Accepted(files, headers, paths)
    ensures States(headers, paths).Ok?
    ensures View(ExecAll(files, s, Includes(paths)), name)
            == Cell(Overlay(States(headers, paths).value, name, View(s, name).value), View(s, name).saved)
  {
    hide View, Run, RunAt, Events, Summarize;
    if paths != [] {
      var p, before := Last(paths), Includes(Init(paths));
      IncludesView(files, headers, s, Init(paths), name);
      assert Init(before + [Include(p)]) == before;
      assert p in paths;
      var middle := ExecAll(files, s, before);
      RunView(middle, Events(files[p].lines), name);
      SummaryIsEffect(files[p].lines, View(middle, name), name);
    }
  }

  /** When an original's source is reached, its own Definitions have been applied to the state before it. */
  lemma PrologueView(files: Files, headers: string -> Result<Summary>, o: Original, touched: seq<string>, s: State, name: string)
    requires Distinct(touched)
    requires Accepted(files, headers, o.definitions)
    ensures States(headers, o.definitions).Ok?
    ensures var cell := View(ExecAll(files, s, Prologue(o, touched)), name);
            && cell.value == Overlay(States(headers, o.definitions).value, name, View(s, name).value)
            && cell.saved == View(s, name).saved + (if name in touched then [View(s, name).value] else [])
  {
    hide View, Pushes, Includes, Accepted, States, Exec;
    var comment := Comment("// Original Unity: " + o.source);
    ExecAppend(files, s, [comment] + Pushes(touched), Includes(o.definitions));
    ExecAppend(files, s, [comment], Pushes(touched));
    CommentDoesNothing(files, s, comment);
    PushesView(files, s, touched, name);
    IncludesView(files, headers, ExecAll(files, s, Pushes(touched)), o.definitions, name);
  }

  lemma CommentDoesNothing(files: Files, s: State, line: Line)
    requires line.Comment?
    ensures ExecAll(files, s, [line]) == s
  {
    OneLine(files, s, line);
  }

  /** The source and the pops after it: what was pushed last is back, whatever the source did. */
  lemma EpilogueView(files: Files, o: Original, touched: seq<string>, s: State, name: string)
    requires Distinct(touched) && o.source in files && files[o.source].Unit? && WellBehaved(files[o.source].source)
    ensures var cell := View(ExecAll(files, s, Epilogue(o, touched)), name);
            if name in touched && View(s, name).saved != [] then
              cell == Cell(Last(View(s, name).saved), Init(View(s, name).saved))
            else cell.saved == View(s, name).saved
  {
    hide View, Pops, Run, RunAt, Balanced;
    ExecAppend(files, s, [Include(o.source)], Pops(touched));
    OneLine(files, s, Include(o.source));
    var events := files[o.source].source(s.macros);
    var middle := Run(s, events);
    RunView(s, events, name);
    var cell := View(s, name);
    assert Balanced(events, name, 0);
    BalancedRestores(cell, events, name, |cell.saved|);
    assert cell.saved[..|cell.saved|] == cell.saved;
    PopsView(files, middle, touched, name);
  }

  lemma ConsistentInit(files: Files, headers: string -> Result<Summary>, originals: seq<Original>, touched: seq<string>)
    requires originals != [] && Consistent(files, headers, originals, touched)
    ensures Consistent(files, headers, Init(originals), touched)
  {
    hide WellBehaved, Accepted;
    assert forall o :: o in Init(originals) ==> o in originals;
  }

  lemma ConsistentLast(files: Files, headers: string -> Result<Summary>, originals: seq<Original>, touched: seq<string>, o: Original)
    requires o in originals && Consistent(files, headers, originals, touched)
    ensures Distinct(touched) && o.source in files && files[o.source].Unit? && WellBehaved(files[o.source].source)
    ensures Accepted(files, headers, o.definitions)
  {
    hide WellBehaved, Accepted;
  }

  /** The state before the wrapper is back after it: every touched macro, and everything that was pushed. */
  lemma {:induction false} WrapperRestores(files: Files, headers: string -> Result<Summary>, originals: seq<Original>,
                                           touched: seq<string>, s: State, name: string)
    requires Consistent(files, headers, originals, touched)
    ensures View(ExecAll(files, s, Wrapper(originals, touched)), name).saved == View(s, name).saved
    ensures name in touched ==> View(ExecAll(files, s, Wrapper(originals, touched)), name) == View(s, name)
  {
    hide View, Consistent, Prologue, Epilogue, WellBehaved, Accepted, States;
    if originals == [] {
      CommentDoesNothing(files, s, HEADING);
    } else {
      var o, before := Last(originals), Wrapper(Init(originals), touched);
      ConsistentInit(files, headers, originals, touched);
      ConsistentLast(files, headers, originals, touched, o);
      WrapperRestores(files, headers, Init(originals), touched, s, name);
      var start := ExecAll(files, s, before);
      ExecAppend(files, s, before + Prologue(o, touched), Epilogue(o, touched));
      ExecAppend(files, s, before, Prologue(o, touched));
      PrologueView(files, headers, o, touched, start, name);
      EpilogueView(files, o, touched, ExecAll(files, start, Prologue(o, touched)), name);
      var v, saved := View(start, name).value, View(start, name).saved;
      if name in touched { assert Init(saved + [v]) == saved && Last(saved + [v]) == v; }
    }
  }

  /** The lines that run before the source of original `i` is included. */
  function Before(originals: seq<Original>, touched: seq<string>, i: nat): seq<Line>
    requires i < |originals|
  {
    Wrapper(originals[..i], touched) + Prologue(originals[i], touched)
  }

  /** These are the first lines of the wrapper, and the source of original `i` comes next. */
  lemma {:induction false} BeforeIsPrefix(originals: seq<Original>, touched: seq<string>, i: nat)
    requires i < |originals|
    ensures Before(originals, touched, i) + [Include(originals[i].source)] <= Wrapper(originals, touched)
  {
    if i == |originals| - 1 {
      assert originals[..i] == Init(originals);
    } else {
      BeforeIsPrefix(Init(originals), touched, i);
      assert Init(originals)[..i] == originals[..i];
    }
  }

  /** The meaning each source sees: its own Definitions applied to the common starting state, for every touched macro. */
  lemma SourceSeesOwnDefinitions(files: Files, headers: string -> Result<Summary>, originals: seq<Original>,
                                 touched: seq<string>, s: State, i: nat, name: string)
    requires i < |originals| && Consistent(files, headers, originals, touched) && name in touched
    ensures States(headers, originals[i].definitions).Ok?
    ensures View(ExecAll(files, s, Before(originals, touched, i)), name).value
            == View(ExecAll(files, s, Includes(originals[i].definitions)), name).value
            == Overlay(States(headers, originals[i].definitions).value, name, View(s, name).value)
  {
    hide View, Consistent, Prologue, WellBehaved, Accepted, States;
    var o, before := originals[i], Wrapper(originals[..i], touched);
    ConsistentPrefix(files, headers, originals, touched, i);
    ConsistentLast(files, headers, originals, touched, o);
    WrapperRestores(files, headers, originals[..i], touched, s, name);
    ExecAppend(files, s, before, Prologue(o, touched));
    PrologueView(files, headers, o, touched, ExecAll(files, s, before), name);
    IncludesView(files, headers, s, o.definitions, name);
  }

  lemma ConsistentPrefix(files: Files, headers: string -> Result<Summary>, originals: seq<Original>, touched: seq<string>, i: nat)
    requires i <= |originals| && Consistent(files, headers, originals, touched)
    ensures Consistent(files, headers, originals[..i], touched)
  {
    hide WellBehaved, Accepted;
    assert forall o :: o in originals[..i] ==> o in originals;
  }
}
