// What an edit of a declaration adds and takes, said of the text itself: where lines begin and end,
// what is blank, and which character stands next to the edit.
module SourceEditShape {
  import opened Wrappers
  import opened SourceEdit
  import opened SourceEditInverse

  /** Only such characters from `from` to `to`. */
  ghost predicate Only(text: string, from: nat, to: nat, skip: char -> bool)
    requires to <= |text|
  {
    forall i: nat | from <= i < to :: skip(text[i])
  }

  lemma AllIsOnly(text: string, from: nat, to: nat, skip: char -> bool)
    requires from <= to <= |text|
    ensures All(text, from, to, skip) <==> Only(text, from, to, skip)
  {
    AheadStops(text, from, to, skip);
    if Only(text, from, to, skip) { AheadIs(text, from, to, skip, to); }
  }

  /** The characters each rule skips; white is the 25 code points of Unicode's White_Space. */
  lemma SkippedCharacters(c: char)
    ensures IsBlank(c) <==> c in " \t"
    ensures IsBlankOrReturn(c) <==> c in " \t\r"
    ensures IsGap(c) <==> c as int in {0x9, 0xC, 0x20}
    ensures IsNotNewline(c) <==> c != '\n'
    ensures IsWhite(c) <==> c as int in {0x9, 0xA, 0xB, 0xC, 0xD, 0x20, 0x85, 0xA0, 0x1680, 0x2000, 0x2001, 0x2002, 0x2003, 0x2004,
                                       0x2005, 0x2006, 0x2007, 0x2008, 0x2009, 0x200A, 0x2028, 0x2029, 0x202F, 0x205F, 0x3000}
  {
  }

  // ----- inserting -----

  /** The last line break between `from` and `to` is at `at`. */
  ghost predicate LastBreak(text: string, from: nat, to: nat, at: nat) {
    from <= at < to <= |text| && text[at] == '\n' && Only(text, at + 1, to, IsNotNewline)
  }

  /** Offset `at` has only blanks before it on its line, which starts at `line`. */
  ghost predicate Indented(text: string, line: nat, at: nat) {
    line <= at <= |text| && (line == 0 || text[line - 1] == '\n') && Only(text, line, at, IsBlank)
  }

  lemma BreakIsBack(text: string, offset: nat, close: nat, at: nat)
    requires LastBreak(text, offset, close, at)
    ensures Back(text, offset, close, IsNotNewline) == at + 1
  {
    BackIs(text, offset, close, IsNotNewline, at + 1);
  }

  lemma NoBreakIsBack(text: string, offset: nat, close: nat)
    requires offset <= close <= |text|
    ensures Back(text, offset, close, IsNotNewline) == offset <==> Only(text, offset, close, IsNotNewline)
    ensures Back(text, offset, close, IsNotNewline) > offset ==>
              LastBreak(text, offset, close, Back(text, offset, close, IsNotNewline) - 1)
  {
    BackStops(text, offset, close, IsNotNewline);
    if Only(text, offset, close, IsNotNewline) { BackIs(text, offset, close, IsNotNewline, offset); }
  }

  lemma IndentedIsLineIndent(text: string, offset: nat)
    ensures LineIndent(text, offset).Some? <==> exists line: nat :: Indented(text, line, offset)
    ensures forall line: nat | Indented(text, line, offset) :: LineIndent(text, offset) == Some(text[line..offset])
  {
    if offset <= |text| {
      var from := LineStart(text, offset);
      BackStops(text, 0, offset, IsNotNewline);
      AllIsOnly(text, from, offset, IsBlank);
      if All(text, from, offset, IsBlank) { assert Indented(text, from, offset); }
      forall line: nat | Indented(text, line, offset) ensures line == from {
        BackIs(text, 0, offset, IsNotNewline, line);
      }
    }
  }

  /** The edit is refused exactly when the declaration is cut off, or does not end in a brace that stands alone on its line. */
  lemma InsertionRefusedIff(text: string, agent: Agent, authored: string)
    ensures var close := agent.offset + agent.length - 1;
            && (Insertion(text, agent, authored) == Failure(MalformedDeclaration)
                <==> agent.offset + agent.length > |text|)
            && (Insertion(text, agent, authored) == Failure(UnsafeSourceShape)
                <==> && agent.offset + agent.length <= |text| && agent.block.Some?
                     && (|| agent.length == 0 || text[close] != '}'
                         || exists b: nat, i: nat :: LastBreak(text, agent.offset, close, b)
                                                     && b < i < close && !IsBlank(text[i])))
  {
    if agent.offset + agent.length <= |text| && agent.block.Some? && agent.length > 0 {
      var close := agent.offset + agent.length - 1;
      NoBreakIsBack(text, agent.offset, close);
      var line := Back(text, agent.offset, close, IsNotNewline);
      AllIsOnly(text, line, close, IsBlank);
      forall b: nat | LastBreak(text, agent.offset, close, b) ensures b + 1 == line {
        BreakIsBack(text, agent.offset, close, b);
      }
      if line > agent.offset { assert LastBreak(text, agent.offset, close, line - 1); }
    }
  }

  /** What is added is the field itself with this before it and that behind it. */
  ghost predicate Surrounds(a: Addition, before: string, authored: string, behind: string) {
    a.lead == |before| && a.added == before + authored + behind
  }

  /** A declaration without a block gets one, with the field in it, right behind it. */
  lemma AddsBlock(text: string, agent: Agent, authored: string)
    requires agent.block.None? && agent.offset + agent.length <= |text|
    ensures var r := Insertion(text, agent, authored);
            r.Success? && r.value.at == agent.offset + agent.length && Surrounds(r.value, " { ", authored, " }")
  {
  }

  /**
   In a block of several lines the field gets a line of its own before the closing brace's, indented
   like the first child where that has a line of its own, and two deeper than the brace otherwise.
   */
  lemma AddsLine(text: string, agent: Agent, authored: string, b: nat)
    requires agent.block.Some? && agent.length > 0 && agent.offset + agent.length <= |text|
    requires var close: nat := agent.offset + agent.length - 1;
             text[close] == '}' && LastBreak(text, agent.offset, close, b) && Only(text, b + 1, close, IsBlank)
    ensures var r := Insertion(text, agent, authored);
            var first := agent.block.value;
            && r.Success? && r.value.at == b + 1
            && (forall line: nat | first.Some? && Indented(text, line, first.value) ::
                  Surrounds(r.value, text[line..first.value], authored, "\n"))
            && ((first.None? || forall line: nat :: !Indented(text, line, first.value)) ==>
                  Surrounds(r.value, text[b + 1..agent.offset + agent.length - 1] + "  ", authored, "\n"))
  {
    var close := agent.offset + agent.length - 1;
    BreakIsBack(text, agent.offset, close, b);
    AllIsOnly(text, b + 1, close, IsBlank);
    if agent.block.value.Some? { IndentedIsLineIndent(text, agent.block.value.value); }
  }

  /** In a block on one line the field goes behind the last child, and the closing brace keeps its place. */
  lemma AddsInline(text: string, agent: Agent, authored: string, at: nat)
    requires agent.block.Some? && agent.length > 0 && agent.offset + agent.length <= |text|
    requires var close := agent.offset + agent.length - 1;
             && text[close] == '}' && Only(text, agent.offset, close, IsNotNewline)
             && agent.offset <= at <= close && Only(text, at, close, IsWhite)
             && (at == agent.offset || !IsWhite(text[at - 1]))
    ensures var r := Insertion(text, agent, authored);
            && r.Success? && r.value.at == at
            && if at > agent.offset && text[at - 1] == '{' then Surrounds(r.value, " ", authored, "")
               else if at > agent.offset && text[at - 1] == ';' then Surrounds(r.value, " ", authored, ";")
               else Surrounds(r.value, "; ", authored, "")
  {
    var close := agent.offset + agent.length - 1;
    NoBreakIsBack(text, agent.offset, close);
    BackIs(text, agent.offset, close, IsWhite, at);
  }

  /**
   Every insertion that succeeds adds the field as authored, between blanks, one separator, one line
   end or the new braces, and leaves only whitespace between it and the closing brace.
   */
  lemma InsertionAdds(text: string, agent: Agent, authored: string, a: Addition)
    requires Insertion(text, agent, authored) == Success(a)
    ensures a.lead + |authored| <= |a.added| && a.added[a.lead..a.lead + |authored|] == authored
    ensures var before, behind := a.added[..a.lead], a.added[a.lead + |authored|..];
            || (before == " { " && behind == " }")
            || (Only(before, 0, |before|, IsBlank) && behind == "\n")
            || (before == " " && (behind == "" || behind == ";"))
            || (before == "; " && behind == "")
    ensures agent.block.Some? ==> agent.length > 0 && text[agent.offset + agent.length - 1] == '}'
                                  && Only(text, a.at, agent.offset + agent.length - 1, IsWhite)
    ensures agent.block.None? ==> a.at == agent.offset + agent.length
  {
    var end := agent.offset + agent.length;
    if agent.block.None? {
      AddsBlock(text, agent, authored);
      Parts(a, " { ", authored, " }");
    } else {
      NoBreakIsBack(text, agent.offset, end - 1);
      if Back(text, agent.offset, end - 1, IsNotNewline) > agent.offset {
        LineAdds(text, agent, authored, a);
      } else {
        InlineAdds(text, agent, authored, a);
      }
    }
  }

  /** The block ends in a brace, with only whitespace from where the field was added. */
  ghost predicate EndsBehind(text: string, agent: Agent, at: nat) {
    && 0 < agent.length && agent.offset + agent.length <= |text| && text[agent.offset + agent.length - 1] == '}'
    && Only(text, at, agent.offset + agent.length - 1, IsWhite)
  }

  lemma LineAdds(text: string, agent: Agent, authored: string, a: Addition)
    requires Insertion(text, agent, authored) == Success(a) && agent.block.Some?
    requires Back(text, agent.offset, agent.offset + agent.length - 1, IsNotNewline) > agent.offset
    ensures a.lead + |authored| <= |a.added| && a.added[a.lead..a.lead + |authored|] == authored
    ensures Only(a.added, 0, a.lead, IsBlank) && a.added[a.lead + |authored|..] == "\n"
    ensures EndsBehind(text, agent, a.at)
  {
    var close := agent.offset + agent.length - 1;
    var line := Back(text, agent.offset, close, IsNotNewline);
    AllIsOnly(text, line, close, IsBlank);
    var indent := ChildIndent(text, agent.block.value, text[line..close]);
    IndentIsOnlyBlank(text, agent.block.value, line, close);
    hide ChildIndent;
    Parts(a, indent, authored, "\n");
    assert forall i: nat | i < a.lead :: a.added[i] == indent[i];
  }

  lemma InlineAdds(text: string, agent: Agent, authored: string, a: Addition)
    requires Insertion(text, agent, authored) == Success(a) && agent.block.Some?
    requires Back(text, agent.offset, agent.offset + agent.length - 1, IsNotNewline) == agent.offset
    ensures a.lead + |authored| <= |a.added| && a.added[a.lead..a.lead + |authored|] == authored
    ensures var before, behind := a.added[..a.lead], a.added[a.lead + |authored|..];
            (before == " " && (behind == "" || behind == ";")) || (before == "; " && behind == "")
    ensures EndsBehind(text, agent, a.at)
  {
    var close := agent.offset + agent.length - 1;
    NoBreakIsBack(text, agent.offset, close);
    BackStops(text, agent.offset, close, IsWhite);
    AddsInline(text, agent, authored, Back(text, agent.offset, close, IsWhite));
    InlineParts(authored, a);
  }

  lemma InlineParts(authored: string, a: Addition)
    requires Surrounds(a, " ", authored, "") || Surrounds(a, " ", authored, ";") || Surrounds(a, "; ", authored, "")
    ensures a.lead + |authored| <= |a.added| && a.added[a.lead..a.lead + |authored|] == authored
    ensures var before, behind := a.added[..a.lead], a.added[a.lead + |authored|..];
            (before == " " && (behind == "" || behind == ";")) || (before == "; " && behind == "")
  {
    if Surrounds(a, " ", authored, "") { Parts(a, " ", authored, ""); }
    if Surrounds(a, " ", authored, ";") { Parts(a, " ", authored, ";"); }
    if Surrounds(a, "; ", authored, "") { Parts(a, "; ", authored, ""); }
  }

  lemma Parts(a: Addition, before: string, authored: string, behind: string)
    requires Surrounds(a, before, authored, behind)
    ensures a.lead + |authored| <= |a.added| && a.added[a.lead..a.lead + |authored|] == authored
    ensures a.added[..a.lead] == before && a.added[a.lead + |authored|..] == behind
  {
  }

  lemma IndentIsOnlyBlank(text: string, block: Option<nat>, from: nat, to: nat)
    requires from <= to <= |text| && Only(text, from, to, IsBlank)
    ensures var indent := ChildIndent(text, block, text[from..to]);
            Only(indent, 0, |indent|, IsBlank)
  {
    var indent := ChildIndent(text, block, text[from..to]);
    if block.Some? && LineIndent(text, block.value).Some? {
      IndentedIsLineIndent(text, block.value);
      var line: nat :| Indented(text, line, block.value);
      assert forall i: nat | i < |indent| :: indent[i] == text[line + i];
    } else {
      var closing := text[from..to];
      assert indent == closing + "  ";
      forall i: nat | i < |indent| ensures IsBlank(indent[i]) {
        assert i < |closing| ==> closing[i] == text[from + i];
      }
    }
  }

  // ----- removing -----

  /** The field from `start` to `end` begins on the line that starts at `from` and ends on the one that ends at `to`. */
  ghost predicate OnLine(text: string, start: nat, end: nat, from: nat, to: nat) {
    && from <= start <= end <= to <= |text|
    && (from == 0 || text[from - 1] == '\n') && Only(text, from, start, IsNotNewline)
    && (to == |text| || text[to] == '\n') && Only(text, end, to, IsNotNewline)
  }

  /** `at` is where such characters begin that run up to `to`. */
  ghost predicate RunsUpTo(text: string, from: nat, at: nat, to: nat, skip: char -> bool) {
    from <= at <= to <= |text| && Only(text, at, to, skip) && (at == from || !skip(text[at - 1]))
  }

  /** `at` is where such characters end that run from `from`. */
  ghost predicate RunsOn(text: string, from: nat, at: nat, to: nat, skip: char -> bool) {
    from <= at <= to <= |text| && Only(text, from, at, skip) && (at == to || !skip(text[at]))
  }

  /** Blanks, and perhaps a line comment behind them. */
  ghost predicate TailTrivia(text: string, end: nat, to: nat)
    requires to <= |text|
  {
    || Only(text, end, to, IsBlankOrReturn)
    || exists c: nat :: end <= c && c + 1 < to && text[c] == '/' && text[c + 1] == '/' && Only(text, end, c, IsBlankOrReturn)
  }

  /** What surrounds a field: its line, the blanks before it, the first content behind it and the gap behind that. */
  datatype Place = Place(from: nat, to: nat, before: nat, content: nat, gap: nat)

  ghost predicate Placed(text: string, start: nat, end: nat, p: Place) {
    && OnLine(text, start, end, p.from, p.to)
    && RunsUpTo(text, p.from, p.before, start, IsBlank)
    && RunsOn(text, end, p.content, p.to, IsBlank)
    && (p.content < p.to ==> RunsOn(text, p.content + 1, p.gap, p.to, IsGap))
  }

  lemma EveryFieldIsPlaced(text: string, start: nat, end: nat) returns (p: Place)
    requires start <= end <= |text|
    ensures Placed(text, start, end, p)
  {
    var from, to := LineStart(text, start), LineEnd(text, end);
    BackStops(text, 0, start, IsNotNewline);
    AheadStops(text, end, |text|, IsNotNewline);
    BackStops(text, from, start, IsBlank);
    AheadStops(text, end, to, IsBlank);
    var content := Ahead(text, end, to, IsBlank);
    var gap := 0;
    if content < to {
      AheadStops(text, content + 1, to, IsGap);
      gap := Ahead(text, content + 1, to, IsGap);
    }
    p := Place(from, to, Back(text, from, start, IsBlank), content, gap);
  }

  lemma PlacedScans(text: string, start: nat, end: nat, p: Place)
    requires Placed(text, start, end, p)
    ensures LineStart(text, start) == p.from && LineEnd(text, end) == p.to
    ensures Back(text, p.from, start, IsBlank) == p.before && Ahead(text, end, p.to, IsBlank) == p.content
    ensures p.content < p.to ==> Ahead(text, p.content + 1, p.to, IsGap) == p.gap
  {
    BackIs(text, 0, start, IsNotNewline, p.from);
    AheadIs(text, end, |text|, IsNotNewline, p.to);
    BackIs(text, p.from, start, IsBlank, p.before);
    AheadIs(text, end, p.to, IsBlank, p.content);
    if p.content < p.to { AheadIs(text, p.content + 1, p.to, IsGap, p.gap); }
  }

  lemma TailTriviaIs(text: string, end: nat, to: nat)
    requires end <= to <= |text|
    ensures IsLineTailTrivia(text, end, to) <==> TailTrivia(text, end, to)
  {
    var rest := Ahead(text, end, to, IsBlankOrReturn);
    AheadStops(text, end, to, IsBlankOrReturn);
    AllIsOnly(text, end, to, IsBlankOrReturn);
    forall c: nat | end <= c && c + 1 < to && text[c] == '/' && Only(text, end, c, IsBlankOrReturn) ensures c == rest {
      AheadIs(text, end, to, IsBlankOrReturn, c);
    }
  }

  /**
   What goes with a field, for every text: its whole line, comment included, if it is alone on it; the
   blanks on both sides if it is last on a line; the semicolon behind it and the gap behind that; the
   semicolon before it; or the field alone behind an opening brace. Anything else is refused.
   */
  lemma RemovalTakes(text: string, start: nat, end: nat, p: Place)
    requires Placed(text, start, end, p)
    ensures var r := Removal(text, start, end);
            if p.before == p.from && TailTrivia(text, end, p.to) then
              r == Success((p.from, if p.to == |text| then p.to else p.to + 1))
            else if Only(text, end, p.to, IsBlankOrReturn) then r == Success((p.before, p.to))
            else if p.content < p.to && text[p.content] == ';' then r == Success((start, p.gap))
            else if p.before > p.from && text[p.before - 1] == ';' then r == Success((p.before - 1, end))
            else if p.before > p.from && text[p.before - 1] == '{' then r == Success((start, end))
            else r == Failure(UnsafeSourceShape)
  {
    PlacedScans(text, start, end, p);
    TailTriviaIs(text, end, p.to);
    AllIsOnly(text, end, p.to, IsBlankOrReturn);
    AllIsOnly(text, p.from, start, IsBlank);
    assert p.before > p.from ==> !IsBlank(text[p.before - 1]);
  }

  /** And a field is refused as malformed exactly when it ends outside the text. */
  lemma RemovalMalformedIff(text: string, start: nat, end: nat)
    requires start <= end
    ensures Removal(text, start, end) == Failure(MalformedDeclaration) <==> end > |text|
  {
  }
}
