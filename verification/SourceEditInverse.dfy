// Inserting a child and removing it again: when the text comes back byte for byte.
module SourceEditInverse {
  import opened Wrappers
  import opened SourceEdit

  lemma {:induction false} BackIs(text: string, floor: nat, at: nat, skip: char -> bool, r: nat)
    requires floor <= r <= at <= |text| && (r == floor || !skip(text[r - 1]))
    requires forall i :: r <= i < at ==> skip(text[i])
    ensures Back(text, floor, at, skip) == r
  {
    if r < at { BackIs(text, floor, at - 1, skip, r); }
  }

  lemma {:induction false} AheadIs(text: string, at: nat, ceiling: nat, skip: char -> bool, r: nat)
    requires at <= r <= ceiling <= |text| && (r == ceiling || !skip(text[r]))
    requires forall i :: at <= i < r ==> skip(text[i])
    ensures Ahead(text, at, ceiling, skip) == r
    decreases r - at
  {
    if at < r { AheadIs(text, at + 1, ceiling, skip, r); }
  }

  lemma {:induction false} BackStops(text: string, floor: nat, at: nat, skip: char -> bool)
    requires floor <= at <= |text|
    ensures var r := Back(text, floor, at, skip);
            (r == floor || !skip(text[r - 1])) && forall i :: r <= i < at ==> skip(text[i])
  {
    if at > floor && skip(text[at - 1]) { BackStops(text, floor, at - 1, skip); }
  }

  lemma {:induction false} AheadStops(text: string, at: nat, ceiling: nat, skip: char -> bool)
    requires at <= ceiling <= |text|
    ensures var r := Ahead(text, at, ceiling, skip);
            (r == ceiling || !skip(text[r])) && forall i :: at <= i < r ==> skip(text[i])
    decreases ceiling - at
  {
    if at < ceiling && skip(text[at]) { AheadStops(text, at + 1, ceiling, skip); }
  }

  /** The field at `start` shares its line with `q` before it, only blanks between, and a brace at `z` after it. */
  ghost predicate Inline(t: string, start: nat, end: nat, q: nat, z: nat) {
    && q < start <= end <= z < |t| && t[z] == '}'
    && !IsBlank(t[q]) && t[q] != '\n'
    && (forall i :: q < i < start ==> IsBlank(t[i]))
    && (forall i :: end <= i < z ==> t[i] != '\n')
  }

  lemma InlineBefore(t: string, start: nat, end: nat, q: nat, z: nat)
    requires Inline(t, start, end, q, z)
    ensures LineStart(t, start) <= q && Back(t, LineStart(t, start), start, IsBlank) == q + 1
    ensures !All(t, LineStart(t, start), start, IsBlank)
  {
    BackStops(t, 0, start, IsNotNewline);
    BackIs(t, LineStart(t, start), start, IsBlank, q + 1);
    AheadStops(t, LineStart(t, start), start, IsBlank);
  }

  lemma InlineAfter(t: string, start: nat, end: nat, q: nat, z: nat)
    requires Inline(t, start, end, q, z)
    ensures z < LineEnd(t, end) && !All(t, end, LineEnd(t, end), IsBlankOrReturn)
  {
    AheadStops(t, end, |t|, IsNotNewline);
    AheadStops(t, end, LineEnd(t, end), IsBlankOrReturn);
  }

  /** No semicolon follows: the one before goes with the field, a brace before stays. */
  lemma InlineRemoval(t: string, start: nat, end: nat, q: nat, z: nat, w: nat)
    requires Inline(t, start, end, q, z) && end <= w <= z && t[w] != ';' && !IsBlank(t[w])
    requires forall i :: end <= i < w ==> IsBlank(t[i])
    requires t[q] == ';' || t[q] == '{'
    ensures Removal(t, start, end) == Success(if t[q] == ';' then (q, end) else (start, end))
  {
    InlineBefore(t, start, end, q, z);
    InlineAfter(t, start, end, q, z);
    AheadIs(t, end, LineEnd(t, end), IsBlank, w);
  }

  /** A semicolon follows: it goes with the field, and so do the gaps after it. */
  lemma InlineRemovalBefore(t: string, start: nat, end: nat, q: nat, z: nat)
    requires Inline(t, start, end, q, z) && t[end] == ';'
    ensures end < LineEnd(t, end)
    ensures Removal(t, start, end) == Success((start, Ahead(t, end + 1, LineEnd(t, end), IsGap)))
  {
    InlineBefore(t, start, end, q, z);
    InlineAfter(t, start, end, q, z);
    AheadIs(t, end, LineEnd(t, end), IsBlank, end);
  }

  /** `text[at..close]` is white and on one line, and a brace closes it. */
  ghost predicate Closes(text: string, at: nat, close: nat) {
    && at <= close < |text| && text[close] == '}'
    && forall i :: at <= i < close ==> IsWhite(text[i]) && text[i] != '\n'
  }

  /** The first character from `at` on that is no blank: white space, or the brace. */
  lemma FirstSolid(text: string, at: nat, close: nat) returns (w: nat)
    requires Closes(text, at, close)
    ensures at <= w <= close && !IsBlank(text[w]) && text[w] != ';'
    ensures forall i :: at <= i < w ==> IsBlank(text[i])
  {
    w := Ahead(text, at, close, IsBlank);
    AheadStops(text, at, close, IsBlank);
  }

  lemma AddedShape(text: string, at: nat, added: string)
    requires at <= |text|
    ensures |Added(text, at, added)| == |text| + |added|
    ensures forall i :: 0 <= i < at ==> Added(text, at, added)[i] == text[i]
    ensures forall i :: at <= i < at + |added| ==> Added(text, at, added)[i] == added[i - at]
    ensures forall i :: at + |added| <= i < |text| + |added| ==> Added(text, at, added)[i] == text[i - |added|]
  {
  }

  /** Taking out exactly what was added. */
  lemma AddedGoes(text: string, at: nat, added: string)
    requires at <= |text|
    ensures var t := Added(text, at, added); t[..at] + t[at + |added|..] == text
  {
    var t := Added(text, at, added);
    assert t[..at] == text[..at] && t[at + |added|..] == text[at..];
  }

  /** A field added before white space and a brace is inline after the separator added with it. */
  lemma AddedInline(text: string, at: nat, close: nat, added: string, lead: nat)
    requires Closes(text, at, close) && 0 < lead <= |added| && !IsBlank(added[0]) && added[0] != '\n'
    requires forall i :: 0 < i < lead ==> IsBlank(added[i])
    ensures Inline(Added(text, at, added), at + lead, at + |added|, at, close + |added|)
    ensures Added(text, at, added)[at] == added[0]
  {
    AddedShape(text, at, added);
  }

  /** Or after the character it was added behind. */
  lemma AddedInlineBehind(text: string, at: nat, close: nat, added: string, lead: nat, trail: nat)
    requires Closes(text, at, close) && lead + trail <= |added|
    requires at > 0 && !IsBlank(text[at - 1]) && text[at - 1] != '\n'
    requires forall i :: 0 <= i < lead ==> IsBlank(added[i])
    requires forall i :: |added| - trail <= i < |added| ==> added[i] != '\n'
    ensures Inline(Added(text, at, added), at + lead, at + |added| - trail, at - 1, close + |added|)
    ensures Added(text, at, added)[at - 1] == text[at - 1]
  {
    AddedShape(text, at, added);
  }

  lemma AddedSolid(text: string, at: nat, close: nat, added: string) returns (w: nat)
    requires Closes(text, at, close)
    ensures var t := Added(text, at, added);
            && at + |added| <= w <= close + |added| && t[w] != ';' && !IsBlank(t[w])
            && forall i :: at + |added| <= i < w ==> IsBlank(t[i])
  {
    AddedShape(text, at, added);
    w := FirstSolid(text, at, close);
    w := w + |added|;
  }

  /** After the last child of a one-line block: the separator added goes with the field. */
  lemma SeparatorRange(text: string, at: nat, close: nat, added: string)
    requires Closes(text, at, close) && |added| >= 2 && added[0] == ';' && added[1] == ' '
    ensures Removal(Added(text, at, added), at + 2, at + |added|) == Success((at, at + |added|))
  {
    AddedInline(text, at, close, added, 2);
    var w := AddedSolid(text, at, close, added);
    InlineRemoval(Added(text, at, added), at + 2, at + |added|, at, close + |added|, w);
  }

  /** In an empty one-line block: only the field goes, the space added before it stays. */
  lemma SpaceRange(text: string, at: nat, close: nat, added: string)
    requires Closes(text, at, close) && at > 0 && text[at - 1] == '{' && added != [] && added[0] == ' '
    ensures Removal(Added(text, at, added), at + 1, at + |added|) == Success((at + 1, at + |added|))
  {
    AddedInlineBehind(text, at, close, added, 1, 0);
    var w := AddedSolid(text, at, close, added);
    InlineRemoval(Added(text, at, added), at + 1, at + |added|, at - 1, close + |added|, w);
  }

  /** How many gap characters the text has from `at` on, on its line. */
  function Gaps(text: string, at: nat): nat
    requires at <= |text|
  {
    Ahead(text, at, LineEnd(text, at), IsGap) - at
  }

  /** Behind a semicolon: one space is added in front, and all the gaps behind go. */
  lemma GapRange(text: string, at: nat, close: nat, added: string)
    requires Closes(text, at, close) && at > 0 && text[at - 1] == ';'
    requires |added| >= 2 && added[0] == ' ' && added[|added| - 1] == ';'
    ensures Removal(Added(text, at, added), at + 1, at + |added| - 1)
            == Success((at + 1, at + |added| + Gaps(text, at)))
  {
    GapRemoval(text, at, close, added);
    SameGaps(text, at, added);
  }

  lemma GapRemoval(text: string, at: nat, close: nat, added: string)
    requires Closes(text, at, close) && at > 0 && text[at - 1] == ';'
    requires |added| >= 2 && added[0] == ' ' && added[|added| - 1] == ';'
    ensures var t, end := Added(text, at, added), at + |added| - 1;
            && end < LineEnd(t, end)
            && Removal(t, at + 1, end) == Success((at + 1, Ahead(t, end + 1, LineEnd(t, end), IsGap)))
  {
    AddedInlineBehind(text, at, close, added, 1, 1);
    InlineRemovalBefore(Added(text, at, added), at + 1, at + |added| - 1, at - 1, close + |added|);
  }

  lemma AddedPart(text: string, at: nat, added: string, kept: nat, gone: nat)
    requires at + gone <= |text| && kept <= |added|
    ensures var t := Added(text, at, added);
            t[..at + kept] + t[at + |added| + gone..] == text[..at] + added[..kept] + text[at + gone..]
  {
    var t := Added(text, at, added);
    assert t[..at + kept] == text[..at] + added[..kept];
    assert t[at + |added| + gone..] == text[at + gone..];
  }

  /** The gaps after the added text are the gaps that were there. */
  lemma SameGaps(text: string, at: nat, added: string)
    requires at <= |text| && added != [] && added[|added| - 1] != '\n'
    ensures var t, end := Added(text, at, added), at + |added| - 1;
            end < LineEnd(t, end) && Ahead(t, end + 1, LineEnd(t, end), IsGap) == end + 1 + Gaps(text, at)
  {
    var t, end := Added(text, at, added), at + |added| - 1;
    AddedShape(text, at, added);
    AheadStops(text, at, |text|, IsNotNewline);
    AheadIs(t, end, |t|, IsNotNewline, LineEnd(text, at) + |added|);
    AheadStops(text, at, LineEnd(text, at), IsGap);
    AheadIs(t, end + 1, LineEnd(text, at) + |added|, IsGap, at + Gaps(text, at) + |added|);
  }

  /** An agent without a block: only the field goes, the braces added for it stay. */
  lemma BracesRange(text: string, at: nat, added: string)
    requires at <= |text| && |added| >= 5 && added[..3] == " { " && added[|added| - 2..] == " }"
    ensures Removal(Added(text, at, added), at + 3, at + |added| - 2) == Success((at + 3, at + |added| - 2))
  {
    var t, end := Added(text, at, added), at + |added| - 2;
    AddedShape(text, at, added);
    assert added[1] == added[..3][1] && added[2] == added[..3][2];
    assert added[|added| - 2] == added[|added| - 2..][0] && added[|added| - 1] == added[|added| - 2..][1];
    assert Inline(t, at + 3, end, at + 1, end + 1);
    InlineRemoval(t, at + 3, end, at + 1, end + 1, end + 1);
  }

  lemma IndentIsBlank(text: string, from: nat, to: nat, more: string)
    requires from <= to <= |text| && All(text, from, to, IsBlank)
    requires forall i :: 0 <= i < |more| ==> IsBlank(more[i])
    ensures All(text[from..to] + more, 0, to - from + |more|, IsBlank)
  {
    AheadStops(text, from, to, IsBlank);
    var indent := text[from..to] + more;
    forall i | 0 <= i < |indent| ensures IsBlank(indent[i]) {
      if i < to - from { assert indent[i] == text[from + i]; }
    }
    AheadIs(indent, 0, |indent|, IsBlank, |indent|);
  }

  lemma ChildIndentIsBlank(text: string, block: Option<nat>, from: nat, to: nat)
    requires from <= to <= |text| && All(text, from, to, IsBlank)
    ensures var indent := ChildIndent(text, block, text[from..to]); All(indent, 0, |indent|, IsBlank)
  {
    if block.Some? && LineIndent(text, block.value).Some? {
      IndentIsBlank(text, LineStart(text, block.value), block.value, "");
      var indent := text[LineStart(text, block.value)..block.value];
      assert indent + "" == indent;
    } else {
      IndentIsBlank(text, from, to, "  ");
    }
  }

  /** Where a one-line block's white space before its brace begins. */
  lemma OneLineCloses(text: string, offset: nat, close: nat)
    requires offset <= close < |text| && text[close] == '}' && Back(text, offset, close, IsNotNewline) == offset
    ensures Closes(text, Back(text, offset, close, IsWhite), close)
  {
    BackStops(text, offset, close, IsNotNewline);
    BackStops(text, offset, close, IsWhite);
  }

  /** One space and the rest is the text again exactly when one space was all the gap there was. */
  lemma OneSpaceBack(text: string, at: nat, space: string, gaps: nat)
    requires at + gaps < |text| && space == " "
    ensures text[..at] + space + text[at + gaps..] == text <==> gaps == 1 && text[at] == ' '
  {
    var r := text[..at] + space + text[at + gaps..];
    assert |r| == |text| + 1 - gaps && r[at] == ' ';
    if gaps == 1 && text[at] == ' ' { assert text == text[..at] + [text[at]] + text[at + 1..]; }
  }

  /** A block over several lines, a last child without a semicolon, or one space after its semicolon. */
  predicate Restores(text: string, agent: Agent)
    requires agent.offset + agent.length <= |text|
  {
    agent.block.Some? && agent.length > 0
    && (var close := agent.offset + agent.length - 1;
        var at := Back(text, agent.offset, close, IsWhite);
        || Back(text, agent.offset, close, IsNotNewline) > agent.offset
        || at == agent.offset
        || (text[at - 1] == ';' && Gaps(text, at) == 1 && text[at] == ' ')
        || (text[at - 1] != '{' && text[at - 1] != ';'))
  }

  /** Removing the `length` characters that start `lead` into what was added. */
  function RemovedAgain(text: string, a: Addition, length: nat): Result<string, Refusal>
    requires a.at <= |text|
  {
    Removed(Added(text, a.at, a.added), a.at + a.lead, a.at + a.lead + length)
  }

  /** What an addition looks like when the agent has no block, one on several lines, or one on one line. */
  predicate BracedField(a: Addition, length: nat) {
    a.lead == 3 && |a.added| == length + 5 && a.added[..3] == " { " && a.added[|a.added| - 2..] == " }"
  }

  predicate OwnLine(text: string, a: Addition, length: nat) {
    && a.at <= |text| && (a.at == 0 || text[a.at - 1] == '\n')
    && |a.added| == a.lead + length + 1 && a.added[a.lead + length] == '\n'
    && All(a.added, 0, a.lead, IsBlank)
  }

  predicate AfterBrace(text: string, a: Addition, length: nat) {
    0 < a.at <= |text| && text[a.at - 1] == '{' && a.lead == 1 && |a.added| == 1 + length && a.added[0] == ' '
  }

  predicate AfterSemicolon(text: string, a: Addition, length: nat) {
    && 0 < a.at <= |text| && text[a.at - 1] == ';' && a.lead == 1
    && |a.added| == length + 2 && a.added[0] == ' ' && a.added[length + 1] == ';'
  }

  predicate AfterChild(a: Addition, length: nat) {
    a.lead == 2 && |a.added| == length + 2 && a.added[0] == ';' && a.added[1] == ' '
  }

  /** The range removed decides the text left. */
  lemma Cut(t: string, start: nat, end: nat, from: nat, to: nat)
    requires start <= end && Removal(t, start, end) == Success((from, to))
    ensures Removed(t, start, end) == Success(t[..from] + t[to..])
  {
  }

  lemma Restored(t: string, start: nat, end: nat, from: nat, to: nat, text: string)
    requires start <= end && Removal(t, start, end) == Success((from, to)) && t[..from] + t[to..] == text
    ensures Removed(t, start, end) == Success(text)
  {
  }

  lemma AfterBraceAgain(text: string, a: Addition, length: nat, close: nat)
    requires AfterBrace(text, a, length) && Closes(text, a.at, close)
    ensures var r := RemovedAgain(text, a, length); r.Success? && |r.value| == |text| + 1
  {
    hide Removal;
    SpaceRange(text, a.at, close, a.added);
    Cut(Added(text, a.at, a.added), a.at + 1, a.at + |a.added|, a.at + 1, a.at + |a.added|);
  }

  lemma AfterSemicolonAgain(text: string, a: Addition, length: nat, close: nat)
    requires AfterSemicolon(text, a, length) && Closes(text, a.at, close)
    ensures RemovedAgain(text, a, length) == Success(text[..a.at] + a.added[..1] + text[a.at + Gaps(text, a.at)..])
  {
    hide Removal;
    GapRange(text, a.at, close, a.added);
    AddedPart(text, a.at, a.added, 1, Gaps(text, a.at));
    Restored(Added(text, a.at, a.added), a.at + 1, a.at + |a.added| - 1, a.at + 1, a.at + |a.added| + Gaps(text, a.at),
             text[..a.at] + a.added[..1] + text[a.at + Gaps(text, a.at)..]);
  }

  lemma AfterChildAgain(text: string, a: Addition, length: nat, close: nat)
    requires AfterChild(a, length) && Closes(text, a.at, close)
    ensures RemovedAgain(text, a, length) == Success(text)
  {
    hide Removal;
    SeparatorRange(text, a.at, close, a.added);
    AddedGoes(text, a.at, a.added);
    Restored(Added(text, a.at, a.added), a.at + 2, a.at + |a.added|, a.at, a.at + |a.added|, text);
  }

  lemma BracedAgain(text: string, a: Addition, length: nat)
    requires BracedField(a, length) && a.at <= |text|
    ensures var r := RemovedAgain(text, a, length); r.Success? && |r.value| == |text| + 5
  {
    hide Removal;
    BracesRange(text, a.at, a.added);
    Cut(Added(text, a.at, a.added), a.at + 3, a.at + |a.added| - 2, a.at + 3, a.at + |a.added| - 2);
  }

  /** In a block of several lines the field gets a line of its own, which goes with it. */
  lemma OwnLineAgain(text: string, a: Addition, length: nat)
    requires OwnLine(text, a, length)
    ensures RemovedAgain(text, a, length) == Success(text)
  {
    hide Removal;
    OwnLineRange(text, a, length);
    AddedGoes(text, a.at, a.added);
    Restored(Added(text, a.at, a.added), a.at + a.lead, a.at + a.lead + length, a.at, a.at + |a.added|, text);
  }

  lemma OwnLineRange(text: string, a: Addition, length: nat)
    requires OwnLine(text, a, length)
    ensures Removal(Added(text, a.at, a.added), a.at + a.lead, a.at + a.lead + length)
            == Success((a.at, a.at + |a.added|))
  {
    var t := Added(text, a.at, a.added);
    var start, end := a.at + a.lead, a.at + a.lead + length;
    AheadStops(a.added, 0, a.lead, IsBlank);
    AddedShape(text, a.at, a.added);
    BackIs(t, 0, start, IsNotNewline, a.at);
    AheadIs(t, end, |t|, IsNotNewline, end);
    AheadIs(t, a.at, start, IsBlank, start);
  }

  // ----- what the source adds -----

  lemma GapsEnd(text: string, at: nat, close: nat)
    requires Closes(text, at, close)
    ensures at + Gaps(text, at) <= close
  {
    AheadStops(text, at, LineEnd(text, at), IsGap);
  }

  lemma OneLineShape(text: string, agent: Agent, authored: string, a: Addition)
    requires Insertion(text, agent, authored) == Success(a) && agent.block.Some?
    requires Back(text, agent.offset, agent.offset + agent.length - 1, IsNotNewline) == agent.offset
    ensures a.at == Back(text, agent.offset, agent.offset + agent.length - 1, IsWhite)
    ensures Closes(text, a.at, agent.offset + agent.length - 1)
    ensures if a.at > agent.offset && text[a.at - 1] == '{' then AfterBrace(text, a, |authored|)
            else if a.at > agent.offset && text[a.at - 1] == ';' then AfterSemicolon(text, a, |authored|)
            else AfterChild(a, |authored|)
  {
    OneLineCloses(text, agent.offset, agent.offset + agent.length - 1);
  }

  lemma BlankLead(indent: string, rest: string)
    requires All(indent, 0, |indent|, IsBlank)
    ensures All(indent + rest, 0, |indent|, IsBlank)
  {
    AheadStops(indent, 0, |indent|, IsBlank);
    AheadIs(indent + rest, 0, |indent|, IsBlank, |indent|);
  }

  lemma ManyLinesShape(text: string, agent: Agent, authored: string, a: Addition)
    requires Insertion(text, agent, authored) == Success(a) && agent.block.Some?
    requires Back(text, agent.offset, agent.offset + agent.length - 1, IsNotNewline) > agent.offset
    ensures OwnLine(text, a, |authored|)
  {
    var close := agent.offset + agent.length - 1;
    var line := Back(text, agent.offset, close, IsNotNewline);
    BackStops(text, agent.offset, close, IsNotNewline);
    ChildIndentIsBlank(text, agent.block.value, line, close);
    var indent := ChildIndent(text, agent.block.value, text[line..close]);
    BlankLead(indent, authored + "\n");
    assert indent + authored + "\n" == indent + (authored + "\n");
  }

  lemma NoBlockShape(text: string, agent: Agent, authored: string, a: Addition)
    requires Insertion(text, agent, authored) == Success(a) && agent.block.None?
    ensures BracedField(a, |authored|)
  {
  }

  lemma OneLineAgain(text: string, agent: Agent, authored: string, a: Addition)
    requires Insertion(text, agent, authored) == Success(a) && agent.block.Some?
    requires Back(text, agent.offset, agent.offset + agent.length - 1, IsNotNewline) == agent.offset
    ensures RemovedAgain(text, a, |authored|).Success?
    ensures RemovedAgain(text, a, |authored|) == Success(text) <==> Restores(text, agent)
  {
    hide Removal;
    var close := agent.offset + agent.length - 1;
    OneLineShape(text, agent, authored, a);
    if a.at > agent.offset && text[a.at - 1] == '{' {
      AfterBraceAgain(text, a, |authored|, close);
    } else if a.at > agent.offset && text[a.at - 1] == ';' {
      AfterSemicolonAgain(text, a, |authored|, close);
      GapsEnd(text, a.at, close);
      OneSpaceBack(text, a.at, a.added[..1], Gaps(text, a.at));
    } else {
      AfterChildAgain(text, a, |authored|, close);
    }
  }

  /**
   For every text, agent and field: a field inserted can be removed, and removing it brings the text
   back exactly for the shapes `Restores` names; an agent without a block, or with an empty block on
   one line, keeps what was added around the field.
   */
  lemma InsertThenRemove(text: string, agent: Agent, authored: string, a: Addition)
    requires Insertion(text, agent, authored) == Success(a)
    ensures RemovedAgain(text, a, |authored|).Success?
    ensures RemovedAgain(text, a, |authored|) == Success(text) <==> Restores(text, agent)
  {
    hide Removal;
    if agent.block.None? {
      NoBlockShape(text, agent, authored, a);
      BracedAgain(text, a, |authored|);
    } else if Back(text, agent.offset, agent.offset + agent.length - 1, IsNotNewline) > agent.offset {
      ManyLinesShape(text, agent, authored, a);
      OwnLineAgain(text, a, |authored|);
    } else {
      OneLineAgain(text, agent, authored, a);
    }
  }

  // ----- what a removal may take with the field -----

  /** Blanks up to the field, and perhaps the semicolon before them. */
  ghost predicate OnlyLead(text: string, from: nat, start: nat) {
    from <= start <= |text|
    && forall i :: from <= i < start ==> IsBlank(text[i]) || (i == from && text[i] == ';')
  }

  /** The rest of the field's line, if that is blank or a comment, with its line end; or one semicolon and the gaps around it. */
  ghost predicate OnlyTail(text: string, end: nat, to: nat) {
    end <= to <= |text|
    && (|| IsLineTailTrivia(text, end, to)
        || (end < to && text[to - 1] == '\n' && IsLineTailTrivia(text, end, to - 1))
        || exists c :: end <= c < to && text[c] == ';' && (forall i :: end <= i < c ==> IsBlank(text[i]))
                       && (forall i :: c < i < to ==> IsGap(text[i])))
  }

  lemma LeadIsTrivia(text: string, start: nat, end: nat, from: nat, to: nat)
    requires start <= end && Removal(text, start, end) == Success((from, to))
    ensures OnlyLead(text, from, start)
  {
    var lineStart := LineStart(text, start);
    BackStops(text, lineStart, start, IsBlank);
    AheadStops(text, lineStart, start, IsBlank);
  }

  lemma TailIsTrivia(text: string, start: nat, end: nat, from: nat, to: nat)
    requires start <= end && Removal(text, start, end) == Success((from, to))
    ensures OnlyTail(text, end, to)
  {
    var lineEnd := LineEnd(text, end);
    var content := Ahead(text, end, lineEnd, IsBlank);
    AheadStops(text, end, |text|, IsNotNewline);
    AheadStops(text, end, lineEnd, IsBlank);
    if content < lineEnd { AheadStops(text, content + 1, lineEnd, IsGap); }
  }

  /** A removal takes the field and, beyond it, separators, blanks and the field's own comment: no other content. */
  lemma RemovalTakesOnlyTrivia(text: string, start: nat, end: nat, from: nat, to: nat)
    requires start <= end && Removal(text, start, end) == Success((from, to))
    ensures OnlyLead(text, from, start) && OnlyTail(text, end, to)
  {
    LeadIsTrivia(text, start, end, from, to);
    TailIsTrivia(text, start, end, from, to);
  }
}
