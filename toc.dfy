/**
 * The table-of-contents parser of compress_pdf_group.py
 * (`parse_bookmark_structure`): a Markdown list whose top-level items
 * (`"- "`) are sections and whose indented items (`"  - "`) are the entry
 * titles of the most recent section.
 */
module Toc {
  import opened Strings

  /** One `(section, [entries])` pair of the parsed structure. */
  datatype Section = Section(title: string, entries: seq<string>)

  /** `line.startswith("- ")`, spelled out character by character. */
  predicate IsSectionLine(line: string)
  {
    |line| >= 2 && line[0] == '-' && line[1] == ' '
  }

  /** `line.startswith("  - ")`, spelled out character by character. */
  predicate IsEntryLine(line: string)
  {
    |line| >= 4 && line[0] == ' ' && line[1] == ' ' && line[2] == '-' && line[3] == ' '
  }

  lemma LineKindsAreStartsWith(line: string)
    ensures IsSectionLine(line) <==> StartsWith(line, "- ")
    ensures IsEntryLine(line) <==> StartsWith(line, "  - ")
  {
    if |line| >= 2 {
      assert line[..2] == [line[0], line[1]];
    }
    if |line| >= 4 {
      assert line[..4] == [line[0], line[1], line[2], line[3]];
    }
  }

  /**
   * `line[2:].strip(":").strip()`. The colons go first, so a colon before
   * the line's newline is kept.
   */
  function SectionTitle(line: string): string
    requires IsSectionLine(line)
  {
    Strip(StripColons(line[2..]))
  }

  /** The title of an entry line: what follows the four-character marker, stripped. */
  function EntryText(line: string): string
    requires IsEntryLine(line)
  {
    Strip(line[4..])
  }

  /**
   * The parser's variables between two lines. `current` is
   * `current_section`; `""` stands for both `None` and an empty title, which
   * the truthiness test treats alike.
   */
  datatype ParseState = ParseState(structure: seq<Section>, current: string)

  function Last(structure: seq<Section>): Section
    requires structure != []
  {
    structure[|structure| - 1]
  }

  /** A current section is always the last one recorded. */
  predicate Consistent(st: ParseState)
  {
    st.current != "" ==> st.structure != [] && Last(st.structure).title == st.current
  }

  /** The structure with `entry` added at the end of the last section's entries. */
  function AppendEntry(structure: seq<Section>, entry: string): (r: seq<Section>)
    requires structure != []
    ensures |r| == |structure| && r[..|r| - 1] == structure[..|structure| - 1]
    ensures Last(r) == Section(Last(structure).title, Last(structure).entries + [entry])
  {
    structure[..|structure| - 1] + [Section(Last(structure).title, Last(structure).entries + [entry])]
  }

  /** One iteration of the parser's loop. */
  function Step(st: ParseState, line: string): (r: ParseState)
    requires Consistent(st)
    ensures Consistent(r)
  {
    if IsSectionLine(line) then
      ParseState(st.structure + [Section(SectionTitle(line), [])], SectionTitle(line))
    else if IsEntryLine(line) && st.current != "" then
      ParseState(AppendEntry(st.structure, EntryText(line)), st.current)
    else
      st
  }

  /** The parser's state after the given lines. */
  function ParseLines(lines: seq<string>): (st: ParseState)
    ensures Consistent(st)
  {
    if lines == [] then ParseState([], "")
    else Step(ParseLines(lines[..|lines| - 1]), lines[|lines| - 1])
  }

  lemma ParseLinesSnoc(lines: seq<string>, i: nat)
    requires i < |lines|
    ensures ParseLines(lines[..i + 1]) == Step(ParseLines(lines[..i]), lines[i])
  {
    assert lines[..i + 1][..i] == lines[..i];
  }

  /** `parse_bookmark_structure` on the file's content. */
  method ParseBookmarkStructure(content: string) returns (structure: seq<Section>)
    ensures structure == ParseLines(Lines(content)).structure
  {
    var lines := Lines(content);
    structure := [];
    var current := "";
    var i := 0;
    while i < |lines|
      invariant 0 <= i <= |lines|
      invariant ParseLines(lines[..i]) == ParseState(structure, current)
    {
      ghost var before := ParseState(structure, current);
      var line := lines[i];
      if IsSectionLine(line) {
        current := SectionTitle(line);
        structure := structure + [Section(current, [])];
      } else if IsEntryLine(line) && current != "" {
        var entry := EntryText(line);
        var last := structure[|structure| - 1];
        structure := structure[..|structure| - 1] + [Section(last.title, last.entries + [entry])];
        assert structure == AppendEntry(before.structure, entry);
      }
      assert ParseState(structure, current) == Step(before, line);
      ParseLinesSnoc(lines, i);
      i := i + 1;
    }
    assert lines[..|lines|] == lines;
  }

  function Titles(structure: seq<Section>): seq<string>
  {
    if structure == [] then [] else Titles(structure[..|structure| - 1]) + [Last(structure).title]
  }

  /** The titles of the `"- "` lines, in file order. */
  function SectionLineTitles(lines: seq<string>): seq<string>
  {
    if lines == [] then []
    else
      var last := lines[|lines| - 1];
      SectionLineTitles(lines[..|lines| - 1]) + (if IsSectionLine(last) then [SectionTitle(last)] else [])
  }

  /** The stripped texts of the `"  - "` lines, in file order. */
  function EntryTexts(lines: seq<string>): seq<string>
  {
    if lines == [] then []
    else
      var last := lines[|lines| - 1];
      EntryTexts(lines[..|lines| - 1]) + (if IsEntryLine(last) then [EntryText(last)] else [])
  }

  predicate NoSectionLine(lines: seq<string>)
  {
    forall k :: 0 <= k < |lines| ==> !IsSectionLine(lines[k])
  }

  lemma TitlesAppendEntry(structure: seq<Section>, entry: string)
    requires structure != []
    ensures Titles(AppendEntry(structure, entry)) == Titles(structure)
  {
    var r := AppendEntry(structure, entry);
    assert r[..|r| - 1] == structure[..|structure| - 1];
  }

  /** One section per `"- "` line, in file order, titled as that line says. */
  lemma {:induction false} SectionsFollowSectionLines(lines: seq<string>)
    ensures Titles(ParseLines(lines).structure) == SectionLineTitles(lines)
    decreases |lines|
  {
    if lines != [] {
      var prev := ParseLines(lines[..|lines| - 1]);
      SectionsFollowSectionLines(lines[..|lines| - 1]);
      var line := lines[|lines| - 1];
      if IsSectionLine(line) {
        var s := prev.structure + [Section(SectionTitle(line), [])];
        assert s[..|s| - 1] == prev.structure;
      } else if IsEntryLine(line) && prev.current != "" {
        TitlesAppendEntry(prev.structure, EntryText(line));
      }
    }
  }

  /** Entry lines before the first section line are dropped. */
  lemma {:induction false} LeadingEntriesDropped(lines: seq<string>)
    requires NoSectionLine(lines)
    ensures ParseLines(lines) == ParseState([], "")
    decreases |lines|
  {
    if lines != [] {
      LeadingEntriesDropped(lines[..|lines| - 1]);
    }
  }

  /**
   * A section line followed by lines that open no section yields one new
   * section holding the texts of exactly those entry lines, or none of them
   * when its title is empty; the sections before it are left as they were.
   */
  lemma {:induction false} SectionBlock(before: seq<string>, line: string, after: seq<string>)
    requires IsSectionLine(line) && NoSectionLine(after)
    ensures var t := SectionTitle(line);
      ParseLines(before + [line] + after)
      == ParseState(ParseLines(before).structure + [Section(t, if t == "" then [] else EntryTexts(after))], t)
    decreases |after|
  {
    if after == [] {
      assert before + [line] + after == before + [line];
      ParseLinesAppend(before, line);
    } else {
      SectionBlock(before, line, after[..|after| - 1]);
      SectionBlockStep(before, line, after);
    }
  }

  /** The inductive step of SectionBlock: one more line after the section line. */
  lemma SectionBlockStep(before: seq<string>, line: string, after: seq<string>)
    requires IsSectionLine(line) && after != [] && !IsSectionLine(after[|after| - 1])
    requires var t := SectionTitle(line); var a' := after[..|after| - 1];
      ParseLines(before + [line] + a')
      == ParseState(ParseLines(before).structure + [Section(t, if t == "" then [] else EntryTexts(a'))], t)
    ensures var t := SectionTitle(line);
      ParseLines(before + [line] + after)
      == ParseState(ParseLines(before).structure + [Section(t, if t == "" then [] else EntryTexts(after))], t)
  {
    var t := SectionTitle(line);
    var prefix := ParseLines(before).structure;
    var a' := after[..|after| - 1];
    var last := after[|after| - 1];
    var es := if t == "" then [] else EntryTexts(a');
    var es' := if t == "" then [] else EntryTexts(after);
    SplitLast(before + [line], after);
    calc {
      ParseLines(before + [line] + after);
      { ParseLinesAppend(before + [line] + a', last); }
      Step(ParseLines(before + [line] + a'), last);
      Step(ParseState(prefix + [Section(t, es)], t), last);
      { StepInBlock(prefix, t, es, last); }
      ParseState(prefix + [Section(t, if IsEntryLine(last) && t != "" then es + [EntryText(last)] else es)], t);
      { BlockEntriesSnoc(t, after); }
      ParseState(prefix + [Section(t, es')], t);
    }
  }

  lemma BlockEntriesSnoc(t: string, after: seq<string>)
    requires after != []
    ensures var last := after[|after| - 1];
      var es := if t == "" then [] else EntryTexts(after[..|after| - 1]);
      (if IsEntryLine(last) && t != "" then es + [EntryText(last)] else es)
      == (if t == "" then [] else EntryTexts(after))
  {
    EntryTextsSnoc(after);
  }

  lemma EntryTextsSnoc(lines: seq<string>)
    requires lines != []
    ensures var last := lines[|lines| - 1];
      EntryTexts(lines) == EntryTexts(lines[..|lines| - 1]) + (if IsEntryLine(last) then [EntryText(last)] else [])
  {
  }

  lemma StepInBlock(prefix: seq<Section>, t: string, es: seq<string>, last: string)
    requires !IsSectionLine(last)
    requires Consistent(ParseState(prefix + [Section(t, es)], t))
    ensures Step(ParseState(prefix + [Section(t, es)], t), last)
      == ParseState(prefix + [Section(t, if IsEntryLine(last) && t != "" then es + [EntryText(last)] else es)], t)
  {
    if IsEntryLine(last) && t != "" {
      AppendLast(prefix, Section(t, es), EntryText(last));
    }
  }

  lemma SplitLast<T>(front: seq<T>, s: seq<T>)
    requires s != []
    ensures front + s == (front + s[..|s| - 1]) + [s[|s| - 1]]
  {
    assert s == s[..|s| - 1] + [s[|s| - 1]];
  }

  lemma ParseLinesAppend(lines: seq<string>, line: string)
    ensures ParseLines(lines + [line]) == Step(ParseLines(lines), line)
  {
    assert (lines + [line])[..|lines|] == lines;
  }

  lemma AppendLast(prefix: seq<Section>, sec: Section, entry: string)
    ensures AppendEntry(prefix + [sec], entry) == prefix + [Section(sec.title, sec.entries + [entry])]
  {
    assert (prefix + [sec])[..|prefix|] == prefix;
  }

  /** A colon ending the title survives when the line ends in a newline. */
  lemma ColonKeptBeforeNewline(t: string)
    requires t != [] && !IsSpace(t[0]) && t[0] != ':'
    ensures SectionTitle("- " + t + ":\n") == t + ":"
  {
    var line := "- " + t + ":\n";
    assert line[2..] == t + ":\n";
    assert TrimStart(t + ":\n", IsColon) == t + ":\n";
    assert TrimEnd(t + ":\n", IsColon) == t + ":\n";
    assert TrimStart(t + ":\n", IsSpace) == t + ":\n";
    assert (t + ":\n")[..|t| + 1] == t + ":";
    assert TrimEnd(t + ":", IsSpace) == t + ":";
  }

  /** On a last line without a newline the same colon is removed. */
  lemma ColonDroppedWithoutNewline(t: string)
    requires t != [] && !IsSpace(t[0]) && t[0] != ':'
    requires !IsSpace(t[|t| - 1]) && t[|t| - 1] != ':'
    ensures SectionTitle("- " + t + ":") == t
  {
    var line := "- " + t + ":";
    assert line[2..] == t + ":";
    assert TrimStart(t + ":", IsColon) == t + ":";
    assert (t + ":")[..|t|] == t;
    assert TrimEnd(t, IsColon) == t;
    assert TrimStart(t, IsSpace) == t;
    assert TrimEnd(t, IsSpace) == t;
  }
}
