// src/eval_run.rs, `shell_single_quote` and `add_eval_exit_markers`: a task's command is wrapped in a
// shell line that passes it, quoted, as one word. The words a shell sees follow sections 2.2.1
// (backslash) and 2.2.2 (single quotes) of the POSIX.1-2017 Shell Command Language.
module Shell {
  import opened Wrappers

  datatype Mode = Bare | Quoted

  /** Characters that mean something else to a shell when bare; no line rendered here has one. */
  predicate IsSpecial(c: char) {
    || c == '|' || c == '&' || c == ';' || c == '<' || c == '>' || c == '(' || c == ')' || c == '$' || c == '`'
    || c == '\"' || c == '*' || c == '?' || c == '[' || c == '#' || c == '~' || c == '=' || c == '%' || c == '\n'
  }

  predicate IsPlain(c: char) {
    !IsSpecial(c) && c != ' ' && c != '\t' && c != '\'' && c != '\\'
  }

  function Cons(word: Option<string>, rest: Option<seq<string>>): Option<seq<string>> {
    if word.Some? && rest.Some? then Some([word.value] + rest.value) else rest
  }

  /** The words of `s` read on from `mode` with `word` begun; None when this reader does not know. */
  function Words(s: string, mode: Mode, word: Option<string>): Option<seq<string>>
    decreases |s|
  {
    match mode
    case Quoted =>
      if s == [] then None
      else if s[0] == '\'' then Words(s[1..], Bare, word)
      else Words(s[1..], Quoted, Some(word.GetOr("") + [s[0]]))
    case Bare =>
      if s == [] then Cons(word, Some([]))
      else if s[0] == ' ' || s[0] == '\t' then Cons(word, Words(s[1..], Bare, None))
      else if s[0] == '\'' then Words(s[1..], Quoted, Some(word.GetOr("")))
      else if s[0] == '\\' then
        if |s| == 1 then None
        else if s[1] == '\n' then Words(s[2..], Bare, word)
        else Words(s[2..], Bare, Some(word.GetOr("") + [s[1]]))
      else if IsSpecial(s[0]) then None
      else Words(s[1..], Bare, Some(word.GetOr("") + [s[0]]))
  }

  function Tokenize(line: string): Option<seq<string>> {
    Words(line, Bare, None)
  }

  // ----- the source's rendering -----

  function Escape(value: string): string {
    if value == [] then []
    else (if value[0] == '\'' then "'\\''" else [value[0]]) + Escape(value[1..])
  }

  function SingleQuote(value: string): string {
    "'" + Escape(value) + "'"
  }

  const SCRIPT: string :=
    "marker=$1; command=$2; rm -f \"$marker\"; sh -c \"$command\"; code=$?; "
    + "tmp=\"$marker.$$\"; printf '%s\\n' \"$code\" > \"$tmp\"; mv \"$tmp\" \"$marker\"; exit \"$code\""

  /** `sh -c <script> <name> <marker> <command>`, the last two and the script quoted. */
  function WrapperLine(sh: string, flag: string, script: string, name: string, marker: string, command: string): string {
    sh + " " + flag + " " + SingleQuote(script) + " " + name + " " + SingleQuote(marker) + " " + SingleQuote(command)
  }

  function Wrapper(marker: string, command: string): string {
    WrapperLine("sh", "-c", SCRIPT, "st2-exit-marker", marker, command)
  }

  // ----- reading it back -----

  lemma {:induction false} EscapeReadsBack(value: string, rest: string, begun: string)
    ensures Words(Escape(value) + "'" + rest, Quoted, Some(begun)) == Words(rest, Bare, Some(begun + value))
    decreases |value|
  {
    if value == [] {
      assert (Escape(value) + "'" + rest)[1..] == rest;
      assert begun + value == begun;
    } else {
      var tail := Escape(value[1..]) + "'" + rest;
      EscapeReadsBack(value[1..], rest, begun + [value[0]]);
      assert begun + [value[0]] + value[1..] == begun + value;
      if value[0] == '\'' {
        QuoteReadsBack(tail, begun);
        assert Escape(value) + "'" + rest == "'\\''" + tail;
      } else {
        var s := Escape(value) + "'" + rest;
        assert s == [value[0]] + tail;
        assert s[1..] == tail;
      }
    }
  }

  /** A quote inside quotes: close, escape one, open again. */
  lemma QuoteReadsBack(tail: string, begun: string)
    ensures Words("'\\''" + tail, Quoted, Some(begun)) == Words(tail, Quoted, Some(begun + "'"))
  {
    var closed := "\\''" + tail;
    var escaped := "'" + tail;
    assert ("'\\''" + tail)[1..] == closed && closed[2..] == escaped && escaped[1..] == tail;
    assert Words(closed, Bare, Some(begun)) == Words(escaped, Bare, Some(begun + "'"));
  }

  /** A quoted value, whatever it holds, reads back as one whole word. */
  lemma QuotedWord(value: string, rest: string)
    ensures Words(SingleQuote(value) + rest, Bare, None) == Words(rest, Bare, Some(value))
  {
    EscapeReadsBack(value, rest, "");
    var s := SingleQuote(value) + rest;
    assert s[1..] == Escape(value) + "'" + rest;
    assert "" + value == value;
  }

  ghost predicate AllPlain(word: string) {
    forall i :: 0 <= i < |word| ==> IsPlain(word[i])
  }

  lemma {:induction false} PlainReadsBack(word: string, rest: string, begun: string)
    requires AllPlain(word)
    ensures Words(word + rest, Bare, Some(begun)) == Words(rest, Bare, Some(begun + word))
    decreases |word|
  {
    if word == [] {
      assert word + rest == rest && begun + word == begun;
    } else {
      assert (word + rest)[1..] == word[1..] + rest;
      PlainReadsBack(word[1..], rest, begun + [word[0]]);
      assert begun + [word[0]] + word[1..] == begun + word;
    }
  }

  lemma PlainWord(word: string, rest: string)
    requires AllPlain(word) && word != []
    ensures Words(word + rest, Bare, None) == Words(rest, Bare, Some(word))
  {
    assert (word + rest)[1..] == word[1..] + rest;
    PlainReadsBack(word[1..], rest, [word[0]]);
    assert "" + [word[0]] == [word[0]] && [word[0]] + word[1..] == word;
  }

  /** An argument of a rendered line. */
  datatype Argument = Literal(text: string) | Value(text: string)

  ghost predicate Renderable(arguments: seq<Argument>) {
    forall i :: 0 <= i < |arguments| && arguments[i].Literal? ==> arguments[i].text != [] && AllPlain(arguments[i].text)
  }

  function Render(argument: Argument): string {
    match argument
    case Literal(text) => text
    case Value(text) => SingleQuote(text)
  }

  function RenderLine(arguments: seq<Argument>): string {
    if arguments == [] then ""
    else if |arguments| == 1 then Render(arguments[0])
    else Render(arguments[0]) + " " + RenderLine(arguments[1..])
  }

  function Texts(arguments: seq<Argument>): seq<string> {
    if arguments == [] then [] else [arguments[0].text] + Texts(arguments[1..])
  }

  lemma RenderedWord(argument: Argument, rest: string)
    requires argument.Literal? ==> argument.text != [] && AllPlain(argument.text)
    ensures Words(Render(argument) + rest, Bare, None) == Words(rest, Bare, Some(argument.text))
  {
    match argument
    case Literal(text) => PlainWord(text, rest);
    case Value(text) => QuotedWord(text, rest);
  }

  /** Every rendered line is read as exactly the arguments it was rendered from. */
  lemma {:induction false} LineReadsBack(arguments: seq<Argument>)
    requires Renderable(arguments)
    ensures Tokenize(RenderLine(arguments)) == Some(Texts(arguments))
  {
    if |arguments| == 1 {
      RenderedWord(arguments[0], "");
      assert Render(arguments[0]) + "" == Render(arguments[0]);
      assert arguments[1..] == [];
    } else if |arguments| > 1 {
      var rest := " " + RenderLine(arguments[1..]);
      RenderedWord(arguments[0], rest);
      assert Render(arguments[0]) + " " + RenderLine(arguments[1..]) == Render(arguments[0]) + rest;
      assert rest[1..] == RenderLine(arguments[1..]);
      LineReadsBack(arguments[1..]);
    }
  }

  lemma RenderCons(argument: Argument, rest: seq<Argument>)
    requires rest != []
    ensures RenderLine([argument] + rest) == Render(argument) + (" " + RenderLine(rest))
    ensures Texts([argument] + rest) == [argument.text] + Texts(rest)
  {
    assert ([argument] + rest)[1..] == rest;
  }

  lemma Append(argument: Argument, rest: seq<Argument>, line: string)
    requires rest != [] && Renderable(rest) && RenderLine(rest) == line
    requires argument.Literal? ==> argument.text != [] && AllPlain(argument.text)
    ensures Renderable([argument] + rest)
    ensures RenderLine([argument] + rest) == Render(argument) + (" " + line)
    ensures Texts([argument] + rest) == [argument.text] + Texts(rest)
  {
    RenderCons(argument, rest);
  }

  /** The words of a wrapper, as the arguments that render it. */
  lemma WrapperArguments(sh: string, flag: string, script: string, name: string, marker: string, command: string)
    returns (arguments: seq<Argument>)
    requires AllPlain(sh) && AllPlain(flag) && AllPlain(name) && sh != [] && flag != [] && name != []
    ensures Renderable(arguments)
    ensures RenderLine(arguments) == WrapperLine(sh, flag, script, name, marker, command)
    ensures Texts(arguments) == [sh, flag, script, name, marker, command]
  {
    var last := [Value(command)];
    var line := SingleQuote(command);
    Append(Value(marker), last, line);
    last, line := [Value(marker)] + last, SingleQuote(marker) + (" " + line);
    Append(Literal(name), last, line);
    last, line := [Literal(name)] + last, name + (" " + line);
    Append(Value(script), last, line);
    last, line := [Value(script)] + last, SingleQuote(script) + (" " + line);
    Append(Literal(flag), last, line);
    last, line := [Literal(flag)] + last, flag + (" " + line);
    Append(Literal(sh), last, line);
    arguments := [Literal(sh)] + last;
    Reassociate(sh, flag, SingleQuote(script), name, SingleQuote(marker), SingleQuote(command));
  }

  lemma Reassociate(a: string, b: string, c: string, d: string, e: string, f: string)
    ensures a + (" " + (b + (" " + (c + (" " + (d + (" " + (e + (" " + f)))))))))
            == a + " " + b + " " + c + " " + d + " " + e + " " + f
  {
  }

  lemma PlainNames()
    ensures AllPlain("sh") && AllPlain("-c") && AllPlain("st2-exit-marker")
  {
  }

  lemma LineOfWords(sh: string, flag: string, script: string, name: string, marker: string, command: string)
    requires AllPlain(sh) && AllPlain(flag) && AllPlain(name) && sh != [] && flag != [] && name != []
    ensures Tokenize(WrapperLine(sh, flag, script, name, marker, command))
            == Some([sh, flag, script, name, marker, command])
  {
    var arguments := WrapperArguments(sh, flag, script, name, marker, command);
    LineReadsBack(arguments);
  }

  /** For every marker path and command, quotes, spaces, newlines and backslashes included. */
  lemma WrapperReadsBack(marker: string, command: string)
    ensures Tokenize(Wrapper(marker, command)) == Some(["sh", "-c", SCRIPT, "st2-exit-marker", marker, command])
  {
    PlainNames();
    LineOfWords("sh", "-c", SCRIPT, "st2-exit-marker", marker, command);
  }
}
