// src/agent_author.rs, `insert_node`, `remove_field`, `line_indent` and `is_line_tail_trivia`: edits
// of a declaration's text that leave everything around the edited field alone. A parsed node is
// given by its offsets in the text.
module SourceEdit {
  import opened Wrappers

  datatype Refusal = MalformedDeclaration | UnsafeSourceShape

  /** An agent node: where it is, and its child block's first child, if it has a block and a child. */
  datatype Agent = Agent(offset: nat, length: nat, block: Option<Option<nat>>)

  /** Text to add at one place; the child itself starts `lead` characters into it. */
  datatype Addition = Addition(at: nat, added: string, lead: nat)

  /** Text added at `at`, all else as it was. */
  function Added(text: string, at: nat, added: string): string
    requires at <= |text|
  {
    text[..at] + added + text[at..]
  }

  // ----- characters -----

  predicate IsBlank(c: char) { c == ' ' || c == '\t' }

  predicate IsBlankOrReturn(c: char) { IsBlank(c) || c == '\r' }

  predicate IsNotNewline(c: char) { c != '\n' }

  /** Whitespace in the sense of Unicode's White_Space. */
  predicate IsWhite(c: char) {
    || '\U{9}' <= c <= '\U{D}' || c == ' ' || c == '\U{85}' || c == '\U{A0}' || c == '\U{1680}'
    || '\U{2000}' <= c <= '\U{200A}' || c == '\U{2028}' || c == '\U{2029}' || c == '\U{202F}' || c == '\U{205F}'
    || c == '\U{3000}'
  }

  /** ASCII whitespace that is not a line end. */
  predicate IsGap(c: char) { c == ' ' || c == '\t' || c == '\U{C}' }

  /** Back from `at` over `skip` characters, not past `floor`. */
  function Back(text: string, floor: nat, at: nat, skip: char -> bool): (r: nat)
    requires floor <= at <= |text|
    ensures floor <= r <= at
  {
    if at > floor && skip(text[at - 1]) then Back(text, floor, at - 1, skip) else at
  }

  /** Forward from `at` over `skip` characters, not past `ceiling`. */
  function Ahead(text: string, at: nat, ceiling: nat, skip: char -> bool): (r: nat)
    requires at <= ceiling <= |text|
    ensures at <= r <= ceiling
    decreases ceiling - at
  {
    if at < ceiling && skip(text[at]) then Ahead(text, at + 1, ceiling, skip) else at
  }

  /** Only `skip` characters from `from` to `to`. */
  predicate All(text: string, from: nat, to: nat, skip: char -> bool)
    requires from <= to <= |text|
  {
    Ahead(text, from, to, skip) == to
  }

  function LineStart(text: string, at: nat): nat
    requires at <= |text|
  {
    Back(text, 0, at, IsNotNewline)
  }

  function LineEnd(text: string, at: nat): nat
    requires at <= |text|
  {
    Ahead(text, at, |text|, IsNotNewline)
  }

  // ----- inserting -----

  /** The indentation of the line `offset` is on, if only blanks come before it. */
  function LineIndent(text: string, offset: nat): Option<string> {
    if offset > |text| then None
    else
      var from := LineStart(text, offset);
      if All(text, from, offset, IsBlank) then Some(text[from..offset]) else None
  }

  function ChildIndent(text: string, block: Option<nat>, closing: string): string {
    var first := if block.Some? then LineIndent(text, block.value) else None;
    first.GetOr(closing + "  ")
  }

  /** What to add, and where, for one more child. */
  function Insertion(text: string, agent: Agent, authored: string): (r: Result<Addition, Refusal>)
    ensures r.Success? ==> agent.offset <= r.value.at <= agent.offset + agent.length <= |text|
  {
    var end := agent.offset + agent.length;
    if end > |text| then Failure(MalformedDeclaration)
    else if agent.block.None? then Success(Addition(end, " { " + authored + " }", 3))
    else if agent.length == 0 || text[end - 1] != '}' then Failure(UnsafeSourceShape)
    else if Back(text, agent.offset, end - 1, IsNotNewline) > agent.offset then
      var line := Back(text, agent.offset, end - 1, IsNotNewline);
      if !All(text, line, end - 1, IsBlank) then Failure(UnsafeSourceShape)
      else
        var indent := ChildIndent(text, agent.block.value, text[line..end - 1]);
        Success(Addition(line, indent + authored + "\n", |indent|))
    else
      var at := Back(text, agent.offset, end - 1, IsWhite);
      if at > agent.offset && text[at - 1] == '{' then Success(Addition(at, " " + authored, 1))
      else if at > agent.offset && text[at - 1] == ';' then Success(Addition(at, " " + authored + ";", 1))
      else Success(Addition(at, "; " + authored, 2))
  }

  function Inserted(text: string, agent: Agent, authored: string): Result<string, Refusal> {
    match Insertion(text, agent, authored)
    case Failure(refusal) => Failure(refusal)
    case Success(addition) => Success(Added(text, addition.at, addition.added))
  }

  /** As the source edits its copy of the text. */
  method InsertNode(text: string, agent: Agent, authored: string) returns (r: Result<string, Refusal>)
    ensures r == Inserted(text, agent, authored)
  {
    var end := agent.offset + agent.length;
    if end > |text| { return Failure(MalformedDeclaration); }
    if agent.block.None? { return Success(Added(text, end, " { " + authored + " }")); }
    if agent.length == 0 || text[end - 1] != '}' { return Failure(UnsafeSourceShape); }
    var line := Back(text, agent.offset, end - 1, IsNotNewline);
    if line > agent.offset {
      if !All(text, line, end - 1, IsBlank) { return Failure(UnsafeSourceShape); }
      var indent := ChildIndent(text, agent.block.value, text[line..end - 1]);
      return Success(Added(text, line, indent + authored + "\n"));
    }
    var at := Back(text, agent.offset, end - 1, IsWhite);
    var insertion;
    if at > agent.offset && text[at - 1] == '{' {
      insertion := " " + authored;
    } else if at > agent.offset && text[at - 1] == ';' {
      insertion := " " + authored + ";";
    } else {
      insertion := "; " + authored;
    }
    return Success(Added(text, at, insertion));
  }

  // ----- removing -----

  /** The rest of a line after a node: blanks, and perhaps a line comment. */
  predicate IsLineTailTrivia(text: string, from: nat, to: nat)
    requires from <= to <= |text|
  {
    var rest := Ahead(text, from, to, IsBlankOrReturn);
    rest == to || (rest + 1 < to && text[rest] == '/' && text[rest + 1] == '/')
  }

  /** The range that goes when the field at `start` to `end` goes. */
  function Removal(text: string, start: nat, end: nat): (r: Result<(nat, nat), Refusal>)
    requires start <= end
    ensures r.Success? ==> r.value.0 <= start && end <= r.value.1 <= |text|
  {
    if end > |text| then Failure(MalformedDeclaration)
    else
      var lineStart, lineEnd := LineStart(text, start), LineEnd(text, end);
      if All(text, lineStart, start, IsBlank) && IsLineTailTrivia(text, end, lineEnd) then
        Success((lineStart, if lineEnd < |text| then lineEnd + 1 else lineEnd))
      else if All(text, end, lineEnd, IsBlankOrReturn) then
        Success((Back(text, lineStart, start, IsBlank), lineEnd))
      else
        var content := Ahead(text, end, lineEnd, IsBlank);
        if content < lineEnd && text[content] == ';' then
          Success((start, Ahead(text, content + 1, lineEnd, IsGap)))
        else
          var before := Back(text, lineStart, start, IsBlank);
          if before > 0 && text[before - 1] == ';' then Success((before - 1, end))
          else if before > 0 && text[before - 1] == '{' then Success((start, end))
          else Failure(UnsafeSourceShape)
  }

  function Removed(text: string, start: nat, end: nat): Result<string, Refusal>
    requires start <= end
  {
    match Removal(text, start, end)
    case Failure(refusal) => Failure(refusal)
    case Success(range) => Success(text[..range.0] + text[range.1..])
  }

  method SkipGap(text: string, at: nat, ceiling: nat) returns (r: nat)
    requires at <= ceiling <= |text|
    ensures r == Ahead(text, at, ceiling, IsGap)
  {
    r := at;
    while r < ceiling && IsGap(text[r])
      invariant at <= r <= ceiling
      invariant Ahead(text, at, ceiling, IsGap) == Ahead(text, r, ceiling, IsGap)
    {
      r := r + 1;
    }
  }

  method FindRemoval(text: string, start: nat, end: nat) returns (r: Result<(nat, nat), Refusal>)
    requires start <= end <= |text|
    ensures r == Removal(text, start, end)
  {
    var lineStart, lineEnd := LineStart(text, start), LineEnd(text, end);
    if All(text, lineStart, start, IsBlank) && IsLineTailTrivia(text, end, lineEnd) {
      return Success((lineStart, if lineEnd < |text| then lineEnd + 1 else lineEnd));
    }
    var before := Back(text, lineStart, start, IsBlank);
    if All(text, end, lineEnd, IsBlankOrReturn) { return Success((before, lineEnd)); }
    var content := Ahead(text, end, lineEnd, IsBlank);
    if content < lineEnd && text[content] == ';' {
      var removeEnd := SkipGap(text, content + 1, lineEnd);
      return Success((start, removeEnd));
    }
    if before > 0 && text[before - 1] == ';' { return Success((before - 1, end)); }
    if before > 0 && text[before - 1] == '{' { return Success((start, end)); }
    return Failure(UnsafeSourceShape);
  }

  method RemoveField(text: string, start: nat, end: nat) returns (r: Result<string, Refusal>)
    requires start <= end
    ensures r == Removed(text, start, end)
  {
    if end > |text| { return Failure(MalformedDeclaration); }
    var range := FindRemoval(text, start, end);
    if range.Failure? { return Failure(range.error); }
    var replacement := text;
    replacement := replacement[..range.value.0] + replacement[range.value.1..];
    return Success(replacement);
  }
}
