/** The Windows command-line splitter, and the round trip through every way of quoting an argument list. */
module Argv {
  import opened Prelude

  predicate Blank(c: char) {
    c == ' ' || c == '\t'
  }

  function Slashes(n: nat): (r: string)
    ensures |r| == n
  {
    seq(n, k requires 0 <= k < n => '\\')
  }

  function Prepend(front: string, t: (string, string)): (string, string) {
    (front + t.0, t.1)
  }

  /** The rest of one argument and what follows it, inside or outside quotes, after `b` pending backslashes. */
  function Scan(s: string, quoted: bool, b: nat): (r: (string, string))
    ensures |r.1| <= |s| && (s != "" ==> |r.1| < |s|)
  {
    if s == "" then (Slashes(b), "")
    else if Blank(s[0]) && !quoted then (Slashes(b), s[1..])
    else if s[0] == '"' then
      if b % 2 == 1 then Prepend(Slashes(b / 2) + "\"", Scan(s[1..], quoted, 0))
      else if quoted && |s| > 1 && s[1] == '"' then Prepend(Slashes(b / 2) + "\"", Scan(s[2..], false, 0))
      else Prepend(Slashes(b / 2), Scan(s[1..], !quoted, 0))
    else if s[0] == '\\' then Scan(s[1..], quoted, b + 1)
    else Prepend(Slashes(b) + [s[0]], Scan(s[1..], quoted, 0))
  }

  function Split(s: string): (r: seq<string>)
    decreases |s|
  {
    if s == "" then []
    else if Blank(s[0]) then Split(s[1..])
    else var t := Scan(s, false, 0); [t.0] + Split(t.1)
  }

  // ---- the splitter as it runs ----------------------------------------------------------------

  lemma PrependTwice(a: string, b: string, t: (string, string))
    ensures Prepend(a, Prepend(b, t)) == Prepend(a + b, t)
  {
    assert a + (b + t.0) == (a + b) + t.0;
  }

  lemma PrependNothing(t: (string, string))
    ensures Prepend("", t) == t
  {
    assert "" + t.0 == t.0;
  }

  /** `_split_windows_argument`. */
  method SplitArgument(command: string) returns (value: string, rest: string)
    ensures (value, rest) == Scan(command, false, 0)
  {
    hide Prepend, Slashes;
    value := "";
    var quoted, backslashes: nat, index := false, 0, 0;
    PrependNothing(Scan(command, false, 0));
    assert command[0..] == command;
    while index < |command|
      invariant 0 <= index <= |command|
      invariant Scan(command, false, 0) == Prepend(value, Scan(command[index..], quoted, backslashes))
    {
      var c := command[index];
      ghost var s, v, b := command[index..], value, backslashes;
      assert s[1..] == command[index + 1..];
      if Blank(c) && !quoted {
        PrependEnd(v, Slashes(b), s[1..]);
        return value + Slashes(backslashes), command[index + 1..];
      }
      if c == '"' {
        value := value + Slashes(backslashes / 2);
        if backslashes % 2 == 0 {
          if quoted && index + 1 < |command| && command[index + 1] == '"' {
            assert s[2..] == command[index + 2..];
            PrependTwice(v, Slashes(b / 2) + "\"", Scan(s[2..], false, 0));
            assert v + Slashes(b / 2) + "\"" == v + (Slashes(b / 2) + "\"");
            value := value + "\"";
            index := index + 1;
          } else {
            PrependTwice(v, Slashes(b / 2), Scan(s[1..], !quoted, 0));
          }
          quoted := !quoted;
        } else {
          PrependTwice(v, Slashes(b / 2) + "\"", Scan(s[1..], quoted, 0));
          assert v + Slashes(b / 2) + "\"" == v + (Slashes(b / 2) + "\"");
          value := value + "\"";
        }
        backslashes := 0;
        index := index + 1;
      } else if c == '\\' {
        backslashes := backslashes + 1;
        index := index + 1;
      } else {
        PrependTwice(v, Slashes(b) + [c], Scan(s[1..], quoted, 0));
        assert v + Slashes(b) + [c] == v + (Slashes(b) + [c]);
        value := value + Slashes(backslashes);
        backslashes := 0;
        value := value + [c];
        index := index + 1;
      }
    }
    PrependEnd(value, Slashes(backslashes), "");
    value := value + Slashes(backslashes);
    rest := "";
  }

  lemma PrependEnd(value: string, last: string, rest: string)
    ensures Prepend(value, (last, rest)) == (value + last, rest)
  {
  }

  /** `split_windows_command_line`; it ends on every input, since each argument consumes something. */
  method SplitCommandLine(command: string) returns (arguments: seq<string>)
    ensures arguments == Split(command)
  {
    hide Scan;
    arguments := [];
    var rest := command;
    while rest != ""
      invariant arguments + Split(rest) == Split(command)
      decreases |rest|
    {
      if Blank(rest[0]) {
        rest := rest[1..];
      } else {
        var argument;
        ghost var before := rest;
        argument, rest := SplitArgument(rest);
        assert arguments + ([argument] + Split(rest)) == (arguments + [argument]) + Split(rest);
        arguments := arguments + [argument];
      }
    }
    assert arguments + [] == arguments;
  }

  // ---- quoting --------------------------------------------------------------------------------

  /** The text of an argument after `b` pending backslashes: backslashes double before a quote, and, between
      quotes, at the end. */
  function Escape(arg: string, b: nat, wrapped: bool): string {
    if arg == "" then Slashes(if wrapped then 2 * b else b)
    else if arg[0] == '\\' then Escape(arg[1..], b + 1, wrapped)
    else if arg[0] == '"' then Slashes(2 * b + 1) + "\"" + Escape(arg[1..], 0, wrapped)
    else Slashes(b) + [arg[0]] + Escape(arg[1..], 0, wrapped)
  }

  function Quote(arg: string, wrapped: bool): string {
    if wrapped then "\"" + Escape(arg, 0, true) + "\"" else Escape(arg, 0, false)
  }

  /** An argument may stand without quotes around it when it is not empty and has no blank. */
  predicate MayStandBare(arg: string) {
    arg != "" && forall k :: 0 <= k < |arg| ==> !Blank(arg[k])
  }

  datatype Written = Written(text: string, wrapped: bool)

  predicate Quotable(w: Written) {
    w.wrapped || MayStandBare(w.text)
  }

  function Join(ws: seq<Written>): string {
    if ws == [] then ""
    else if |ws| == 1 then Quote(ws[0].text, ws[0].wrapped)
    else Quote(ws[0].text, ws[0].wrapped) + " " + Join(ws[1..])
  }

  function Texts(ws: seq<Written>): (r: seq<string>)
    ensures |r| == |ws|
  {
    seq(|ws|, k requires 0 <= k < |ws| => ws[k].text)
  }

  // ---- the round trip -------------------------------------------------------------------------

  lemma {:induction false} ScanSlashes(n: nat, s: string, quoted: bool, b: nat)
    ensures Scan(Slashes(n) + s, quoted, b) == Scan(s, quoted, b + n)
  {
    if n == 0 {
      assert Slashes(0) + s == s;
    } else {
      assert (Slashes(n) + s)[1..] == Slashes(n - 1) + s;
      ScanSlashes(n - 1, s, quoted, b + 1);
    }
  }

  predicate EndsArgument(tail: string) {
    tail == "" || Blank(tail[0])
  }

  function AfterBlank(tail: string): string {
    if tail == "" then "" else tail[1..]
  }

  lemma ScanEnd(tail: string)
    requires EndsArgument(tail)
    ensures Scan(tail, false, 0) == ("", AfterBlank(tail))
  {
    assert Slashes(0) == "";
  }

  lemma {:induction false} EscapeScansBack(arg: string, b: nat, wrapped: bool, tail: string)
    requires EndsArgument(tail) && (wrapped || forall k :: 0 <= k < |arg| ==> !Blank(arg[k]))
    ensures Scan(Escape(arg, b, wrapped) + (if wrapped then "\"" + tail else tail), wrapped, 0)
            == (Slashes(b) + arg, AfterBlank(tail))
    decreases arg
  {
    hide Slashes, Scan, Escape, Prepend, EndsArgument;
    var close := if wrapped then "\"" + tail else tail;
    EscapeIs(arg, b, wrapped);
    NoSlashes(arg);
    if arg == "" {
      LastSlashes(b, wrapped, tail);
    } else if arg[0] == '\\' {
      EscapeScansBack(arg[1..], b + 1, wrapped, tail);
      OneMoreSlash(b, arg);
    } else {
      EscapeScansBack(arg[1..], 0, wrapped, tail);
      EscapeStep(arg, b, wrapped, close, AfterBlank(tail));
    }
  }

  /** An ordinary character or a quote: its escaped form puts it back behind the pending backslashes. */
  lemma EscapeStep(arg: string, b: nat, wrapped: bool, close: string, rest: string)
    requires arg != "" && arg[0] != '\\' && (wrapped || !Blank(arg[0]))
    requires Scan(Escape(arg[1..], 0, wrapped) + close, wrapped, 0) == (Slashes(0) + arg[1..], rest)
    ensures Scan(Escape(arg, b, wrapped) + close, wrapped, 0) == (Slashes(b) + arg, rest)
  {
    hide Slashes, Scan, Escape, Prepend;
    var escaped := Escape(arg[1..], 0, wrapped);
    var more := escaped + close;
    EscapeIs(arg, b, wrapped);
    NoSlashes(arg[1..]);
    Reassembles(b, arg, rest);
    if arg[0] == '"' {
      Glue(Slashes(2 * b + 1), "\"", escaped, close);
      ScanEscapedQuote(b, more, wrapped);
      assert [arg[0]] == "\"";
    } else {
      Glue(Slashes(b), [arg[0]], escaped, close);
      ScanPlain(b, arg[0], more, wrapped);
    }
  }

  lemma Glue(a: string, c: string, e: string, close: string)
    ensures a + c + e + close == a + (c + (e + close))
  {
  }

  lemma Reassembles(b: nat, arg: string, rest: string)
    requires arg != ""
    ensures Prepend(Slashes(b) + [arg[0]], (arg[1..], rest)) == (Slashes(b) + arg, rest)
  {
    hide Slashes;
    assert Slashes(b) + [arg[0]] + arg[1..] == Slashes(b) + arg;
  }

  lemma EscapeIs(arg: string, b: nat, wrapped: bool)
    ensures arg == "" ==> Escape(arg, b, wrapped) == Slashes(if wrapped then 2 * b else b)
    ensures arg != "" && arg[0] == '\\' ==> Escape(arg, b, wrapped) == Escape(arg[1..], b + 1, wrapped)
    ensures arg != "" && arg[0] == '"' ==> Escape(arg, b, wrapped) == Slashes(2 * b + 1) + "\"" + Escape(arg[1..], 0, wrapped)
    ensures arg != "" && arg[0] != '\\' && arg[0] != '"' ==>
              Escape(arg, b, wrapped) == Slashes(b) + [arg[0]] + Escape(arg[1..], 0, wrapped)
  {
  }

  lemma NoSlashes(arg: string)
    ensures Slashes(0) + arg == arg
  {
  }

  lemma OneMoreSlash(b: nat, arg: string)
    requires arg != "" && arg[0] == '\\'
    ensures Slashes(b + 1) + arg[1..] == Slashes(b) + arg
  {
  }

  lemma LastSlashes(b: nat, wrapped: bool, tail: string)
    requires EndsArgument(tail)
    ensures Scan(Slashes(if wrapped then 2 * b else b) + (if wrapped then "\"" + tail else tail), wrapped, 0)
            == (Slashes(b) + "", AfterBlank(tail))
  {
    hide Slashes;
    assert Slashes(b) + "" == Slashes(b);
    if wrapped {
      ScanSlashes(2 * b, "\"" + tail, true, 0);
      ScanEnd(tail);
      assert ("\"" + tail)[1..] == tail && (tail != "" ==> ("\"" + tail)[1] == tail[0]);
    } else {
      ScanSlashes(b, tail, false, 0);
    }
  }

  lemma ScanEscapedQuote(b: nat, more: string, quoted: bool)
    ensures Scan(Slashes(2 * b + 1) + ("\"" + more), quoted, 0) == Prepend(Slashes(b) + "\"", Scan(more, quoted, 0))
  {
    hide Slashes;
    ScanSlashes(2 * b + 1, "\"" + more, quoted, 0);
    assert ("\"" + more)[1..] == more;
  }

  lemma ScanPlain(b: nat, c: char, more: string, quoted: bool)
    requires c != '\\' && c != '"' && (quoted || !Blank(c))
    ensures Scan(Slashes(b) + ([c] + more), quoted, 0) == Prepend(Slashes(b) + [c], Scan(more, quoted, 0))
  {
    hide Slashes;
    ScanSlashes(b, [c] + more, quoted, 0);
    assert ([c] + more)[1..] == more;
  }

  /** One quoted argument reads back as itself, and what follows it is untouched. */
  lemma QuoteScansBack(w: Written, tail: string)
    requires Quotable(w) && EndsArgument(tail)
    ensures Scan(Quote(w.text, w.wrapped) + tail, false, 0) == (w.text, AfterBlank(tail))
  {
    hide Slashes, Escape;
    EscapeScansBack(w.text, 0, w.wrapped, tail);
    NoSlashes(w.text);
    if w.wrapped {
      var inside := Escape(w.text, 0, true) + ("\"" + tail);
      var s := Quote(w.text, true) + tail;
      assert s == "\"" + inside;
      assert s[1..] == inside;
      assert Slashes(0) == "" && "" + w.text == w.text;
    }
  }

  lemma {:induction false} EscapeStarts(arg: string, b: nat)
    requires MayStandBare(arg) || (arg == "" && b > 0)
    ensures Escape(arg, b, false) != "" && !Blank(Escape(arg, b, false)[0])
    decreases arg
  {
    if arg != "" && arg[0] == '\\' {
      if arg[1..] != "" { assert forall k :: 0 <= k < |arg[1..]| ==> arg[1..][k] == arg[k + 1]; }
      EscapeStarts(arg[1..], b + 1);
    }
  }

  lemma QuoteStarts(w: Written)
    requires Quotable(w)
    ensures Quote(w.text, w.wrapped) != "" && !Blank(Quote(w.text, w.wrapped)[0])
  {
    if !w.wrapped { EscapeStarts(w.text, 0); }
  }

  /** Every argument list comes back, whichever arguments were put between quotes: empty arguments, blanks, quotes,
      and runs of backslashes before a quote or at the end. */
  lemma {:induction false} SplitJoins(ws: seq<Written>)
    requires forall w :: w in ws ==> Quotable(w)
    ensures Split(Join(ws)) == Texts(ws)
    decreases ws
  {
    hide Quote, Quotable, Scan;
    if ws != [] {
      var text := Quote(ws[0].text, ws[0].wrapped);
      QuoteStarts(ws[0]);
      if |ws| == 1 {
        QuoteScansBack(ws[0], "");
        assert text + "" == text;
        assert Split("") == [];
      } else {
        var tail := " " + Join(ws[1..]);
        QuoteScansBack(ws[0], tail);
        assert tail[1..] == Join(ws[1..]);
        assert text + " " + Join(ws[1..]) == text + tail;
        SplitJoins(ws[1..]);
      }
      assert Texts(ws) == [ws[0].text] + Texts(ws[1..]);
    }
  }

  /** Quoting the arguments of any command again, each between quotes, does not change what it means. */
  lemma RequotingKeepsArguments(command: string, ws: seq<Written>)
    requires Texts(ws) == Split(command) && forall w :: w in ws ==> w.wrapped
    ensures Split(Join(ws)) == Split(command)
  {
    hide Split, Join;
    SplitJoins(ws);
  }

  // ---- what quotes and blanks mean ----------------------------------------------------------------

  /** Text in which no character means anything but itself; blanks do so only inside quotes. */
  predicate Plain(text: string, quoted: bool) {
    forall k :: 0 <= k < |text| ==>
      text[k] != '"' && text[k] != '\\' && (!quoted ==> text[k] != ' ' && text[k] != '\t')
  }

  lemma {:induction false} PlainScans(text: string, tail: string, quoted: bool)
    requires Plain(text, quoted)
    ensures Scan(text + tail, quoted, 0) == Prepend(text, Scan(tail, quoted, 0))
  {
    if text == "" {
      assert text + tail == tail;
      PrependNothing(Scan(tail, quoted, 0));
    } else {
      assert (text + tail)[1..] == text[1..] + tail;
      PlainScans(text[1..], tail, quoted);
      PrependTwice([text[0]], text[1..], Scan(tail, quoted, 0));
      assert [text[0]] + text[1..] == text && Slashes(0) + [text[0]] == [text[0]];
    }
  }

  /** A space or a tab outside quotes ends the argument. */
  lemma BlankEnds(text: string, blank: char, rest: string)
    requires Plain(text, false) && (blank == ' ' || blank == '\t')
    ensures Scan(text + ([blank] + rest), false, 0) == (text, rest)
  {
    PlainScans(text, [blank] + rest, false);
    assert ([blank] + rest)[1..] == rest;
    PrependEnd(text, Slashes(0), rest);
    assert text + Slashes(0) == text;
  }

  /** A doubled quote inside quotes is one quote, and it ends the quoting. */
  lemma DoubledQuote(text: string, rest: string)
    requires Plain(text, true)
    ensures Scan(text + (['"', '"'] + rest), true, 0) == Prepend(text + ['"'], Scan(rest, false, 0))
  {
    var tail := ['"', '"'] + rest;
    PlainScans(text, tail, true);
    assert tail[2..] == rest;
    assert Slashes(0) + "\"" == ['"'];
    PrependTwice(text, ['"'], Scan(rest, false, 0));
  }

  /** A quoted piece between two quotes is itself, blanks included, and the argument goes on behind it. */
  lemma QuotedPiece(text: string, rest: string)
    requires Plain(text, true) && (rest == "" || rest[0] != '"')
    ensures Scan(['"'] + (text + (['"'] + rest)), false, 0) == Prepend(text, Scan(rest, false, 0))
  {
    var tail := ['"'] + rest;
    PlainScans(text, tail, true);
    assert tail[1..] == rest && (['"'] + (text + tail))[1..] == text + tail;
    assert Slashes(0) == "";
    PrependNothing(Scan(rest, false, 0));
    PrependNothing(Scan(text + tail, true, 0));
  }

  lemma OpenQuote(rest: string)
    ensures Scan(['"'] + rest, false, 0) == Scan(rest, true, 0)
  {
    assert (['"'] + rest)[1..] == rest && Slashes(0) == "";
    PrependNothing(Scan(rest, true, 0));
  }

  /** A quote that is never closed lets the argument run to the end. */
  lemma OpenToEnd(text: string, quoted: string)
    requires Plain(text, false) && Plain(quoted, true)
    ensures Scan(text + (['"'] + quoted), false, 0) == (text + quoted, "")
  {
    PlainScans(text, ['"'] + quoted, false);
    OpenQuote(quoted);
    assert quoted + "" == quoted;
    PlainScans(quoted, "", true);
    PrependEnd(quoted, Slashes(0), "");
    assert quoted + Slashes(0) == quoted;
    PrependEnd(text, quoted, "");
  }

  /** So a doubled quote inside quotes ends an argument at the next blank, and the quote after it opens a new one. */
  lemma DoubledQuoteSplits(a: string, b: string, c: string, d: string)
    requires Plain(a, true) && Plain(b, false) && Plain(c, false) && Plain(d, true) && c != ""
    ensures Split(['"'] + (a + (['"', '"'] + (b + ([' '] + (c + (['"'] + d))))))) == [a + ['"'] + b, c + d]
  {
    hide Scan, Plain;
    var inner := c + (['"'] + d);
    var tail := b + ([' '] + inner);
    OpenQuote(a + (['"', '"'] + tail));
    DoubledQuote(a, tail);
    BlankEnds(b, ' ', inner);
    PrependEnd(a + ['"'], b, inner);
    OpenToEnd(c, d);
    assert Split("") == [];
    assert inner[0] == c[0] && !Blank(c[0]) by { PlainStarts(c); }
  }

  lemma PlainStarts(text: string)
    requires Plain(text, false) && text != ""
    ensures !Blank(text[0])
  {
  }
}
