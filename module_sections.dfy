/**
 * `SectionFormat::fmt_sections` of the `module` snapshot: the Rust format
 * wraps the docs in a `<details>` block; the tabs format folds the lines
 * into mdBook or Docusaurus tab markup, a line holding `# ` opening a tab
 * named after the text that follows it.
 */
module ModuleSections {
  import opened Text
  import opened DocComments
  import opened ModuleOptions

  const DETAILS_OPEN: string := "\n<details>\n<summary markdown=\"span\"> details </summary>\n\n"
  const DETAILS_CLOSE: string := "\n</details>\n"

  /** The Rust format: the docs verbatim inside a fixed `<details>` block. */
  function RustDetails(docs: string): (r: string)
    ensures |r| == |DETAILS_OPEN| + |docs| + |DETAILS_CLOSE|
    ensures StartsWith(r, DETAILS_OPEN) && EndsWith(r, DETAILS_CLOSE)
    ensures r[|DETAILS_OPEN|..|r| - |DETAILS_CLOSE|] == docs
  {
    var r := DETAILS_OPEN + docs + DETAILS_CLOSE;
    assert r[..|DETAILS_OPEN|] == DETAILS_OPEN;
    assert r[|r| - |DETAILS_CLOSE|..] == DETAILS_CLOSE;
    assert r[|DETAILS_OPEN|..|r| - |DETAILS_CLOSE|] == docs;
    r
  }

  // ---------------------------------------------------------------------------
  // Docusaurus markup

  const TABS_OPEN: string := "<Tabs>\n<TabItem value=\"Description\" default>\n"
  const TABS_CLOSE: string := "\n</TabItem>\n</Tabs>\n"

  /** Closes the open tab item and opens one named `section`. */
  function TabSwitch(section: string): string
  {
    "</TabItem>\n\n<TabItem value=\"" + section + "\" default>\n"
  }

  /**
   * A plain line, with every angle bracket removed so MDX does not read it
   * as a component, and every other character kept in order
   * (`Text.RemoveCharsConcat`), then a line feed.
   */
  function PlainTabLine(line: string): (r: string)
    ensures r == RemoveChars(line, {'<', '>'}) + "\n"
    ensures '<' !in r && '>' !in r && EndsWith(r, "\n")
    ensures '<' !in line && '>' !in line ==> r == line + "\n"
  {
    var r := RemoveChars(line, {'<', '>'}) + "\n";
    assert r[|r| - 1..] == "\n";
    assert '<' !in line && '>' !in line ==> r == line + "\n" by {
      if '<' !in line && '>' !in line {
        RemoveCharsAbsent(line, {'<', '>'});
      }
    }
    r
  }

  // ---------------------------------------------------------------------------
  // The line folds both tab formats share, for any markup

  /**
   * What one line contributes to a tabs format: a line holding `# `
   * switches to a tab named after the text that follows it; any other
   * line is kept through `plain`.
   */
  function TabPieces(switch: string -> string, plain: string -> string): string -> string
  {
    (line: string) =>
      match SplitOnce(line, "# ")
      case Some((_, section)) => switch(section)
      case None => plain(line)
  }

  /** The name after the first `# ` of a line, if it has one. */
  function HeadingOf(line: string): (r: seq<string>)
    ensures |r| <= 1
  {
    match SplitOnce(line, "# ")
    case Some((_, section)) => [section]
    case None => []
  }

  /** The names after the first `# ` of every line that has one, in order. */
  function TabHeadings(lines: seq<string>): (r: seq<string>)
    ensures |r| <= |lines|
  {
    if lines == [] then []
    else
      TabHeadings(lines[..|lines| - 1]) + HeadingOf(lines[|lines| - 1])
  }

  /** One loop step of a fold that pushes onto `acc`: pushing the next piece extends the fold by one line. */
  lemma FoldStep(pieces: string -> string, lines: seq<string>, i: nat, piece: string)
    requires i < |lines| && piece == pieces(lines[i])
    ensures forall acc: string, start: string :: acc == start + FoldConcat(pieces, lines[..i]) ==>
      acc + piece == start + FoldConcat(pieces, lines[..i + 1])
  {
    assert lines[..i + 1][..i] == lines[..i];
  }

  /** The tab fold: `content` starts at `start` and each line pushes its piece. */
  method FoldTabs(lines: seq<string>, start: string, switch: string -> string, plain: string -> string)
    returns (content: string)
    ensures content == start + FoldConcat(TabPieces(switch, plain), lines)
  {
    ghost var pieces := TabPieces(switch, plain);
    content := start;
    for i := 0 to |lines|
      invariant content == start + FoldConcat(pieces, lines[..i])
    {
      var line := lines[i];
      var piece;
      match SplitOnce(line, "# ") {
        case Some((_, section)) =>
          piece := switch(section);
        case None =>
          piece := plain(line);
      }
      FoldStep(pieces, lines, i, piece);
      content := content + piece;
    }
    assert lines[..|lines|] == lines;
  }

  /** The tab fold that also pushes every section name it meets onto `sections`. */
  method FoldTabsCollecting(lines: seq<string>, start: string, switch: string -> string, plain: string -> string)
    returns (sections: seq<string>, content: string)
    ensures sections == TabHeadings(lines)
    ensures content == start + FoldConcat(TabPieces(switch, plain), lines)
  {
    ghost var pieces := TabPieces(switch, plain);
    sections := [];
    content := start;
    for i := 0 to |lines|
      invariant sections == TabHeadings(lines[..i])
      invariant content == start + FoldConcat(pieces, lines[..i])
    {
      assert lines[..i + 1][..i] == lines[..i];
      var line := lines[i];
      var piece;
      match SplitOnce(line, "# ") {
        case Some((_, section)) =>
          sections := sections + [section];
          piece := switch(section);
        case None =>
          piece := plain(line);
      }
      FoldStep(pieces, lines, i, piece);
      content := content + piece;
    }
    assert lines[..|lines|] == lines;
  }

  /** A fold over names: `bar` starts at `start` and each name pushes its piece. */
  method FoldNames(names: seq<string>, start: string, piece: string -> string) returns (bar: string)
    ensures bar == start + FoldConcat(piece, names)
  {
    bar := start;
    for j := 0 to |names|
      invariant bar == start + FoldConcat(piece, names[..j])
    {
      FoldStep(piece, names, j, piece(names[j]));
      bar := bar + piece(names[j]);
    }
    assert names[..|names|] == names;
  }

  /** A heading line, wherever it stands, switches to a tab named after the text after its first `# `. */
  lemma HeadingLineSwitches(switch: string -> string, plain: string -> string, before: seq<string>, line: string, after: seq<string>)
    requires Contains(line, "# ")
    ensures var pieces := TabPieces(switch, plain);
      FoldConcat(pieces, before + [line] + after)
      == FoldConcat(pieces, before) + switch(SplitOnce(line, "# ").value.1) + FoldConcat(pieces, after)
  {
    var pieces := TabPieces(switch, plain);
    FoldConcatAppend(pieces, before + [line], after);
    FoldConcatAppend(pieces, before, [line]);
    assert [line][..0] == [];
    assert pieces(line) == switch(SplitOnce(line, "# ").value.1);
  }

  /** Without heading lines, every line goes through `plain`. */
  lemma PlainLinesOnly(switch: string -> string, plain: string -> string, lines: seq<string>)
    requires forall i :: 0 <= i < |lines| ==> !Contains(lines[i], "# ")
    ensures TabHeadings(lines) == []
    ensures forall i :: 0 <= i < |lines| ==> TabPieces(switch, plain)(lines[i]) == plain(lines[i])
  {
    NoTabHeadings(lines);
  }

  lemma {:induction false} NoTabHeadings(lines: seq<string>)
    requires forall i :: 0 <= i < |lines| ==> !Contains(lines[i], "# ")
    ensures TabHeadings(lines) == []
  {
    if lines != [] {
      NoTabHeadings(lines[..|lines| - 1]);
    }
  }

  lemma {:induction false} TabHeadingsAppend(a: seq<string>, b: seq<string>)
    ensures TabHeadings(a + b) == TabHeadings(a) + TabHeadings(b)
    decreases |b|
  {
    if b == [] {
      assert a + b == a;
    } else {
      assert (a + b)[..|a + b| - 1] == a + b[..|b| - 1];
      TabHeadingsAppend(a, b[..|b| - 1]);
    }
  }

  /** A heading line, wherever it stands, contributes exactly its own name to the collected names, in place. */
  lemma HeadingLineNamed(before: seq<string>, line: string, after: seq<string>)
    requires Contains(line, "# ")
    ensures TabHeadings(before + [line] + after)
         == TabHeadings(before) + [SplitOnce(line, "# ").value.1] + TabHeadings(after)
  {
    TabHeadingsAppend(before + [line], after);
    TabHeadingsAppend(before, [line]);
    assert [line][..0] == [];
  }

  // ---------------------------------------------------------------------------
  // Docusaurus tabs

  /** A Docusaurus line: a heading switches tab item; any other line loses its angle brackets. */
  function DocusaurusPieces(): string -> string
  {
    TabPieces(TabSwitch, PlainTabLine)
  }

  function DocusaurusTabs(docs: string): string
  {
    TABS_OPEN + FoldConcat(DocusaurusPieces(), Lines(docs)) + TABS_CLOSE
  }

  /** The Docusaurus tabs: the tab fold from the opening markup, then the closing markup. */
  method FmtDocusaurus(docs: string) returns (content: string)
    ensures content == DocusaurusTabs(docs)
  {
    content := FoldTabs(Lines(docs), TABS_OPEN, TabSwitch, PlainTabLine);
    content := content + TABS_CLOSE;
  }

  /** The Docusaurus output opens the description tab first and closes the tabs last. */
  lemma DocusaurusFrame(docs: string)
    ensures StartsWith(DocusaurusTabs(docs), TABS_OPEN)
    ensures EndsWith(DocusaurusTabs(docs), TABS_CLOSE)
  {
    var r := DocusaurusTabs(docs);
    assert r[..|TABS_OPEN|] == TABS_OPEN;
    assert r[|r| - |TABS_CLOSE|..] == TABS_CLOSE;
  }

  /** Without heading lines the tab items carry no angle bracket at all. */
  lemma TabItemsWithoutBrackets(lines: seq<string>)
    requires forall i :: 0 <= i < |lines| ==> !Contains(lines[i], "# ")
    ensures '<' !in FoldConcat(DocusaurusPieces(), lines) && '>' !in FoldConcat(DocusaurusPieces(), lines)
  {
    PlainLinesOnly(TabSwitch, PlainTabLine, lines);
    FoldConcatAvoids(DocusaurusPieces(), lines, '<');
    FoldConcatAvoids(DocusaurusPieces(), lines, '>');
  }

  /** Lines without headings or angle brackets appear unchanged, each followed by a line feed, inside one tab. */
  lemma TabItemsOfPlainLines(lines: seq<string>)
    requires forall i :: 0 <= i < |lines| ==> !Contains(lines[i], "# ") && '<' !in lines[i] && '>' !in lines[i]
    ensures FoldConcat(DocusaurusPieces(), lines) == Concat(WithNewlines(lines))
  {
    PlainLinesOnly(TabSwitch, PlainTabLine, lines);
    FoldConcatWithNewlines(DocusaurusPieces(), lines);
  }

  // ---------------------------------------------------------------------------
  // mdBook tabs

  function DescriptionDiv(fn: string): string
  {
    "\n        <div group=\"" + fn + "\" id=\"" + fn + "-description\" style=\"display: block;\" markdown=\"span\" class=\"tabcontent\">\n        "
  }

  function SectionDiv(fn: string, section: string): string
  {
    "\n        <div group=\"" + fn + "\" id=\"" + fn + "-" + section + "\" class=\"tabcontent\">\n        "
  }

  function ButtonsOpen(fn: string): string
  {
    "\n<div class=\"tab\">\n    <button\n        group=\"" + fn + "\"\n        id=\"link-" + fn
    + "-description\"\n        class=\"tablinks active\"\n        onclick=\"openTab(event, '" + fn
    + "', 'description')\">\n        Description\n    </button>"
  }

  function Button(fn: string, section: string): string
  {
    "\n<button\n    group=\"" + fn + "\"\n    id=\"link-" + fn + "-" + section + "\"\n    class=\"tablinks\"\n    onclick=\"openTab(event, '"
    + fn + "', '" + section + "')\">\n    " + section + "\n</button>"
  }

  /** Closes the open div and opens the one of `section`. */
  function DivSwitch(fn: string, section: string): string
  {
    "\n</div>\n" + SectionDiv(fn, section)
  }

  function DivSwitches(fn: string): string -> string
  {
    (section: string) => DivSwitch(fn, section)
  }

  function Buttons(fn: string): string -> string
  {
    (section: string) => Button(fn, section)
  }

  /** An mdBook line outside a heading is kept as is, with a line feed. */
  function KeepLine(line: string): (r: string)
    ensures r == line + "\n"
  {
    line + "\n"
  }

  function MdBookTabs(fn: string, docs: string): string
  {
    var lines := Lines(docs);
    var buttonBar := ButtonsOpen(fn) + FoldConcat(Buttons(fn), TabHeadings(lines));
    var tabContent := DescriptionDiv(fn) + FoldConcat(TabPieces(DivSwitches(fn), KeepLine), lines) + "</div>\n";
    buttonBar + "</div>\n" + tabContent
  }

  /** The mdBook tabs: the tab-content fold collecting section names, then a fold over those names into the button bar. */
  method FmtMdBook(fn: string, docs: string) returns (r: string)
    ensures r == MdBookTabs(fn, docs)
  {
    var sections, tabContent := FoldTabsCollecting(Lines(docs), DescriptionDiv(fn), DivSwitches(fn), KeepLine);
    tabContent := tabContent + "</div>\n";
    var bar := FoldNames(sections, ButtonsOpen(fn), Buttons(fn));
    r := bar + "</div>\n" + tabContent;
  }

  /** Lines without headings stay one description tab, each line kept with a line feed, and no extra button. */
  lemma TabContentOfPlainLines(fn: string, lines: seq<string>)
    requires forall i :: 0 <= i < |lines| ==> !Contains(lines[i], "# ")
    ensures TabHeadings(lines) == []
    ensures FoldConcat(TabPieces(DivSwitches(fn), KeepLine), lines) == Concat(WithNewlines(lines))
  {
    PlainLinesOnly(DivSwitches(fn), KeepLine, lines);
    FoldConcatWithNewlines(TabPieces(DivSwitches(fn), KeepLine), lines);
  }

  // ---------------------------------------------------------------------------
  // Dispatch

  /** What `fmt_sections` returns for a function's docs. */
  function FormattedSections(format: SectionFormat, fn: string, processor: MarkdownProcessor, docs: string): string
  {
    match format
    case Rust => RustDetails(docs)
    case Tabs =>
      match processor
      case MdBook => MdBookTabs(fn, docs)
      case Docusaurus => DocusaurusTabs(docs)
  }

  /** `SectionFormat::fmt_sections`. */
  method FmtSections(format: SectionFormat, fn: string, processor: MarkdownProcessor, docs: string) returns (r: string)
    ensures r == FormattedSections(format, fn, processor, docs)
  {
    match format {
      case Rust =>
        r := DETAILS_OPEN + docs + DETAILS_CLOSE;
      case Tabs =>
        match processor {
          case MdBook => r := FmtMdBook(fn, docs);
          case Docusaurus => r := FmtDocusaurus(docs);
        }
    }
  }
}
