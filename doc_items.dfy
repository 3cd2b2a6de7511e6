/**
 * Documentation items of the older snapshot.  Items are built as in the
 * newer one, but errors are the crate's `AutodocsError`, and the section
 * scanner differs: a heading on the first line renames the description,
 * directive lines count as headings, and the section being read when the
 * comment ends is never emitted.
 */
module DocItems {
  import opened Wrappers
  import opened Text
  import opened Records
  import Export
  import opened DocComments

  datatype DocItem =
    | Function(rootMetadata: FunctionMetadata, metadata: seq<FunctionMetadata>, name: string, index: nat)
    | CustomType(customMetadata: CustomTypesMetadata, index: nat)

  // ---------------------------------------------------------------------------
  // The ordering directive

  /** The error a directive whose text is not a `usize` gives. */
  function ParseError(e: IntErrorKind): AutodocsError
  {
    PreProcessing("failed to parsed order metadata: " + IntErrorMessage(e))
  }

  /** The index a comment declares: none, a `usize`, or a pre-processing error. */
  function DirectiveIndex(docComments: seq<string>): (r: Result<Option<nat>, AutodocsError>)
    ensures r == Success(None) <==> forall i :: 0 <= i < |docComments| ==> !Contains(docComments[i], INDEX_PATTERN)
    ensures r.Success? && r.value.Some? ==> r.value.value <= USIZE_MAX
    ensures r.Failure? ==> exists e :: r.error == ParseError(e)
  {
    var k := FirstDirectiveLine(docComments);
    if k == |docComments| then Success(None)
    else
      match ParseUsize(DirectiveText(docComments[k]))
      case Success(n) => Success(Some(n))
      case Failure(e) => Failure(ParseError(e))
  }

  /** `find_index`: the first line carrying the directive decides, and the search stops there. */
  method FindIndex(docComments: seq<string>) returns (r: Result<Option<nat>, AutodocsError>)
    ensures r == DirectiveIndex(docComments)
  {
    for i := 0 to |docComments|
      invariant forall k :: 0 <= k < i ==> !Contains(docComments[k], INDEX_PATTERN)
    {
      match RSplitOnce(docComments[i], INDEX_PATTERN) {
        case Some((_, index)) =>
          assert FirstDirectiveLine(docComments) == i;
          match ParseUsize(index) {
            case Success(n) => return Success(Some(n));
            case Failure(err) => return Failure(PreProcessing("failed to parsed order metadata: " + IntErrorMessage(err)));
          }
        case None =>
      }
    }
    return Success(None);
  }

  /** The first directive line `a # rhai-autodocs:index:n` declares index `n`. */
  lemma DirectiveIndexOfNumber(docComments: seq<string>, k: nat, a: string, n: nat)
    requires k < |docComments| && forall i :: 0 <= i < k ==> !Contains(docComments[i], INDEX_PATTERN)
    requires docComments[k] == a + INDEX_PATTERN + NatToString(n) && n <= USIZE_MAX
    ensures DirectiveIndex(docComments) == Success(Some(n))
  {
    DirectiveTextAfter(a, NatToString(n));
    ParseNatToString(n);
  }

  /** A directive with nothing after it reports the empty-string parse error. */
  lemma DirectiveIndexOfNothing(docComments: seq<string>, k: nat, a: string)
    requires k < |docComments| && forall i :: 0 <= i < k ==> !Contains(docComments[i], INDEX_PATTERN)
    requires docComments[k] == a + INDEX_PATTERN
    ensures DirectiveIndex(docComments) == Failure(ParseError(Empty))
  {
    DirectiveTextAfter(a, "");
    assert a + INDEX_PATTERN + "" == a + INDEX_PATTERN;
  }

  // ---------------------------------------------------------------------------
  // Building items

  /** Position of the first overload that has doc comments, or the number of overloads. */
  function FirstDocumented(metadata: seq<FunctionMetadata>): (k: nat)
    ensures k <= |metadata|
    ensures k < |metadata| ==> metadata[k].docComments.Some?
    ensures forall i :: 0 <= i < k ==> metadata[i].docComments.None?
  {
    if metadata == [] then 0
    else if metadata[0].docComments.Some? then 0
    else 1 + FirstDocumented(metadata[1..])
  }

  function CommentLines(docComments: Option<seq<string>>): seq<string>
  {
    if docComments.Some? then docComments.value else []
  }

  /** The index an item gets: 0 in alphabetical mode, the directive's in by-index mode. */
  function OrderIndex(docComments: Option<seq<string>>, options: Export.Options): Result<Option<nat>, AutodocsError>
  {
    if options.itemsOrder == Export.ByIndex then DirectiveIndex(CommentLines(docComments))
    else Success(Some(0))
  }

  /**
   * `new_function`: a group is documented by its first commented overload;
   * anonymous and undocumented groups, and in by-index mode groups without
   * a directive, give no item.
   */
  function NewFunction(metadata: seq<FunctionMetadata>, name: string, options: Export.Options): (r: Result<Option<DocItem>, AutodocsError>)
    ensures FirstDocumented(metadata) == |metadata| || StartsWith(name, "anon$") ==> r == Success(None)
    ensures r.Success? && r.value.Some? ==>
      var k := FirstDocumented(metadata);
      k < |metadata| && r.value.value == Function(metadata[k], metadata, name, r.value.value.index)
    ensures FirstDocumented(metadata) < |metadata| && !StartsWith(name, "anon$") ==>
      var comments := metadata[FirstDocumented(metadata)].docComments.value;
      && (options.itemsOrder == Export.Alphabetical ==> r.Success? && r.value.Some? && r.value.value.index == 0)
      && (options.itemsOrder == Export.ByIndex ==>
            && (r == Success(None) <==> forall i :: 0 <= i < |comments| ==> !Contains(comments[i], INDEX_PATTERN))
            && (r.Failure? <==> DirectiveIndex(comments).Failure?)
            && (r.Success? && r.value.Some? ==> DirectiveIndex(comments) == Success(Some(r.value.value.index))))
  {
    var k := FirstDocumented(metadata);
    if k < |metadata| && !StartsWith(name, "anon$") then
      var root := metadata[k];
      match OrderIndex(root.docComments, options)
      case Failure(e) => Failure(e)
      case Success(None) => Success(None)
      case Success(Some(index)) => Success(Some(Function(root, metadata, name, index)))
    else Success(None)
  }

  /**
   * `new_custom_type`: every custom type is an item in alphabetical mode;
   * in by-index mode only one whose comments carry the directive.
   */
  function NewCustomType(metadata: CustomTypesMetadata, options: Export.Options): (r: Result<Option<DocItem>, AutodocsError>)
    ensures r.Success? && r.value.Some? ==> r.value.value == CustomType(metadata, r.value.value.index)
    ensures options.itemsOrder == Export.Alphabetical ==> r == Success(Some(CustomType(metadata, 0)))
    ensures options.itemsOrder == Export.ByIndex ==>
      var comments := CommentLines(metadata.docComments);
      && (r == Success(None) <==> forall i :: 0 <= i < |comments| ==> !Contains(comments[i], INDEX_PATTERN))
      && (r.Failure? <==> DirectiveIndex(comments).Failure?)
      && (r.Success? && r.value.Some? ==> DirectiveIndex(comments) == Success(Some(r.value.value.index)))
  {
    match OrderIndex(metadata.docComments, options)
    case Failure(e) => Failure(e)
    case Success(None) => Success(None)
    case Success(Some(index)) => Success(Some(CustomType(metadata, index)))
  }

  /** `index()`: the index the item was built with. */
  function Index(item: DocItem): (r: nat)
    ensures item.Function? ==> r == item.index
    ensures item.CustomType? ==> r == item.index
  {
    item.index
  }

  /** `name()`: the display name of a custom type, the group name of a function. */
  function Name(item: DocItem): (r: string)
    ensures item.CustomType? ==> r == item.customMetadata.displayName
    ensures item.Function? ==> r == item.name
  {
    match item
    case CustomType(metadata, _) => metadata.displayName
    case Function(_, _, name, _) => name
  }

  // ---------------------------------------------------------------------------
  // Sections

  /** The variables `extract_sections` updates line by line. */
  datatype Scanner = Scanner(sections: seq<Section>, currentName: string, currentBody: seq<string>, inCodeBlock: bool)

  const INITIAL: Scanner := Scanner([], "Description", [], false)

  /** Any line holding `# ` outside a fence starts a section, directive lines included. */
  predicate StartsSection(open: bool, line: string)
  {
    !open && Contains(line, "# ")
  }

  /** One line of the fold; on the first line a heading renames the current section instead of closing it. */
  function ScanLine(format: seq<string> -> string, s: Scanner, first: bool, line: string): Scanner
  {
    var open := Toggle(s.inCodeBlock, line);
    if StartsSection(open, line) then
      var sections := if first then s.sections else s.sections + [Section(s.currentName, format(s.currentBody))];
      Scanner(sections, HeadingName(line), [], open)
    else if Contains(line, "# ") then s.(inCodeBlock := open)
    else s.(currentBody := s.currentBody + [line + "\n"], inCodeBlock := open)
  }

  function Scan(format: seq<string> -> string, lines: seq<string>): Scanner
  {
    if lines == [] then INITIAL
    else ScanLine(format, Scan(format, lines[..|lines| - 1]), |lines| == 1, lines[|lines| - 1])
  }

  /** The fold over one more line. */
  lemma ScanStep(format: seq<string> -> string, lines: seq<string>, i: nat)
    requires i < |lines|
    ensures Scan(format, lines[..i + 1]) == ScanLine(format, Scan(format, lines[..i]), i == 0, lines[i])
  {
    assert lines[..i + 1][..i] == lines[..i];
  }

  /** The sections of a comment: only those closed by a later heading. */
  function SectionsOf(docs: string): seq<Section>
  {
    Scan(FormatComments, Lines(docs)).sections
  }

  /** `Section::extract_sections` of this snapshot, a fold over a `first` flag. */
  method ExtractSections(docs: string) returns (sections: seq<Section>)
    ensures sections == SectionsOf(docs)
  {
    sections := [];
    var currentName := "Description";
    var currentBody: seq<string> := [];
    var inCodeBlock := false;
    var lines := Lines(docs);
    var first := true;
    for i := 0 to |lines|
      invariant first <==> i == 0
      invariant Scan(FormatComments, lines[..i]) == Scanner(sections, currentName, currentBody, inCodeBlock)
    {
      ScanStep(FormatComments, lines, i);
      var line := lines[i];
      if SplitOnce(line, "```").Some? {
        inCodeBlock := !inCodeBlock;
      }
      match SplitOnce(line, "# ") {
        case Some((_, name)) =>
          if !inCodeBlock {
            if !first {
              sections := sections + [Section(currentName, FormatComments(currentBody))];
            }
            currentName := name;
            currentBody := [];
          }
        case None =>
          currentBody := currentBody + [line + "\n"];
      }
      first := false;
    }
    assert lines[..|lines|] == lines;
  }

  // The sections described without the scanner.

  function AddHeading(heads: seq<string>, open: bool, line: string): seq<string>
  {
    if StartsSection(open, line) then heads + [HeadingName(line)] else heads
  }

  /** The names of all heading lines, in order. */
  function Headings(lines: seq<string>): seq<string>
  {
    if lines == [] then []
    else AddHeading(Headings(lines[..|lines| - 1]), FenceAfter(lines), lines[|lines| - 1])
  }

  function AddToSegments(segs: seq<seq<string>>, open: bool, line: string): (r: seq<seq<string>>)
    requires segs != []
    ensures |r| == |segs| + (if StartsSection(open, line) then 1 else 0)
  {
    if StartsSection(open, line) then segs + [[]]
    else if Contains(line, "# ") then segs
    else segs[..|segs| - 1] + [segs[|segs| - 1] + [line]]
  }

  /** The lines without `# ` before the first heading, then after each heading. */
  function Segments(lines: seq<string>): (r: seq<seq<string>>)
    ensures |r| == |Headings(lines)| + 1
  {
    if lines == [] then [[]]
    else AddToSegments(Segments(lines[..|lines| - 1]), FenceAfter(lines), lines[|lines| - 1])
  }

  predicate FirstLineIsHeading(lines: seq<string>)
  {
    lines != [] && StartsSection(Toggle(false, lines[0]), lines[0])
  }

  /** A first-line heading leaves an empty segment before it. */
  lemma {:induction false} FirstHeadingFacts(lines: seq<string>)
    requires FirstLineIsHeading(lines)
    ensures |Headings(lines)| >= 1 && Headings(lines)[0] == HeadingName(lines[0])
    ensures Segments(lines)[0] == []
  {
    if |lines| > 1 {
      var before := lines[..|lines| - 1];
      assert before[0] == lines[0];
      FirstHeadingFacts(before);
    } else {
      assert lines[..0] == [];
      assert FenceAfter(lines) == Toggle(false, lines[0]);
      assert Headings(lines) == [HeadingName(lines[0])];
    }
  }

  /** The name of each section: `Description` unless a first-line heading renames it, then each later heading. */
  function SectionNames(lines: seq<string>): seq<string>
  {
    if FirstLineIsHeading(lines) then Headings(lines) else ["Description"] + Headings(lines)
  }

  /** The body lines of each section named by `SectionNames`. */
  function BodySegments(lines: seq<string>): (r: seq<seq<string>>)
    ensures |r| == |SectionNames(lines)| >= 1
  {
    if FirstLineIsHeading(lines) then
      FirstHeadingFacts(lines);
      Segments(lines)[1..]
    else Segments(lines)
  }

  /** A scanner state that has emitted every named section but the last, and holds that last one. */
  predicate Agrees(format: seq<string> -> string, s: Scanner, names: seq<string>, segs: seq<seq<string>>, fence: bool)
  {
    && |names| == |segs| >= 1
    && s.inCodeBlock == fence
    && |s.sections| == |names| - 1
    && (forall i :: 0 <= i < |names| - 1 ==> s.sections[i] == Section(names[i], format(WithNewlines(segs[i]))))
    && s.currentName == names[|names| - 1]
    && s.currentBody == WithNewlines(segs[|segs| - 1])
  }

  lemma ScanLineAgrees(format: seq<string> -> string, s: Scanner, names: seq<string>, segs: seq<seq<string>>, fence: bool, line: string)
    requires Agrees(format, s, names, segs, fence)
    ensures var open := Toggle(fence, line);
      Agrees(format, ScanLine(format, s, false, line), AddHeading(names, open, line), AddToSegments(segs, open, line), open)
  {
    var open := Toggle(fence, line);
    var n := |names|;
    if StartsSection(open, line) {
      var names' := names + [HeadingName(line)];
      assert forall i :: 0 <= i < n ==> names'[i] == names[i];
      assert WithNewlines([]) == [];
    } else if !Contains(line, "# ") {
      var segs' := AddToSegments(segs, open, line);
      assert forall i :: 0 <= i < n - 1 ==> segs'[i] == segs[i];
      WithNewlinesAppend(segs[n - 1], line);
    }
  }

  lemma FirstLineAgrees(format: seq<string> -> string, line: string)
    ensures Agrees(format, ScanLine(format, INITIAL, true, line), SectionNames([line]), BodySegments([line]), FenceAfter([line]))
  {
    assert [line][..0] == [];
    assert WithNewlines([]) == [];
    assert FenceAfter([line]) == Toggle(false, line);
    if !StartsSection(Toggle(false, line), line) && !Contains(line, "# ") {
      WithNewlinesAppend([], line);
      assert Segments([line]) == AddToSegments([[]], Toggle(false, line), line);
      var empty: seq<string> := [];
      assert empty + [line] == [line];
      assert [empty][..0] == [];
      assert BodySegments([line]) == [[line]];
    }
  }

  lemma SegmentsTail(segs: seq<seq<string>>, open: bool, line: string)
    requires |segs| >= 2
    ensures AddToSegments(segs, open, line)[1..] == AddToSegments(segs[1..], open, line)
  {
  }

  lemma {:induction false} ScanMatchesSegments(format: seq<string> -> string, lines: seq<string>)
    requires lines != []
    ensures Agrees(format, Scan(format, lines), SectionNames(lines), BodySegments(lines), FenceAfter(lines))
  {
    if |lines| == 1 {
      assert lines == [lines[0]];
      FirstLineAgrees(format, lines[0]);
    } else {
      var before := lines[..|lines| - 1];
      var last := lines[|lines| - 1];
      assert before[0] == lines[0];
      assert Scan(format, lines) == ScanLine(format, Scan(format, before), false, last);
      ScanMatchesSegments(format, before);
      ScanLineAgrees(format, Scan(format, before), SectionNames(before), BodySegments(before), FenceAfter(before), last);
      if FirstLineIsHeading(lines) {
        FirstHeadingFacts(before);
        SegmentsTail(Segments(before), FenceAfter(lines), last);
      }
    }
  }

  /**
   * What `extract_sections` returns: every named section except the last,
   * the `i`-th holding the formatted lines of its segment.
   */
  lemma SectionsOfShape(docs: string)
    ensures var lines := Lines(docs);
      && |SectionsOf(docs)| == (if lines == [] then 0 else |SectionNames(lines)| - 1)
      && forall i :: 0 <= i < |SectionsOf(docs)| ==>
           SectionsOf(docs)[i] == Section(SectionNames(lines)[i], FormatComments(WithNewlines(BodySegments(lines)[i])))
  {
    if Lines(docs) != [] {
      ScanMatchesSegments(FormatComments, Lines(docs));
    }
  }

  /** Without `# ` lines there is no heading, so nothing is emitted at all. */
  lemma {:induction false} NoHeadingsNoSections(docs: string)
    requires forall i :: 0 <= i < |Lines(docs)| ==> !Contains(Lines(docs)[i], "# ")
    ensures SectionsOf(docs) == []
  {
    var lines := Lines(docs);
    NoHeadings(lines);
    SectionsOfShape(docs);
  }

  lemma {:induction false} NoHeadings(lines: seq<string>)
    requires forall i :: 0 <= i < |lines| ==> !Contains(lines[i], "# ")
    ensures Headings(lines) == []
  {
    if lines != [] {
      NoHeadings(lines[..|lines| - 1]);
    }
  }

  /** A heading on the first line names the first emitted section. */
  lemma FirstLineHeadingRenames(docs: string)
    requires FirstLineIsHeading(Lines(docs)) && SectionsOf(docs) != []
    ensures SectionsOf(docs)[0].name == HeadingName(Lines(docs)[0])
  {
    SectionsOfShape(docs);
    FirstHeadingFacts(Lines(docs));
  }

  /** A directive line outside a fence is taken for a heading. */
  lemma DirectiveLineStartsSection(open: bool, line: string)
    requires !open && Contains(line, INDEX_PATTERN)
    ensures StartsSection(open, line) && HeadingName(line) == SplitOnce(line, "# ").value.1
  {
    if !Contains(line, "# ") {
      NoHashNoDirective(line);
    }
  }

  // ---------------------------------------------------------------------------
  // The section left open at the end

  /** The sections with the one still open at the end flushed when its body is not empty. */
  function SectionsWithFinal(docs: string): seq<Section>
  {
    var s := Scan(FormatComments, Lines(docs));
    if s.currentBody != [] then s.sections + [Section(s.currentName, FormatComments(s.currentBody))]
    else s.sections
  }

  /** With the flush every named section whose body is not empty is emitted, the last one included. */
  lemma SectionsWithFinalShape(docs: string)
    requires Lines(docs) != [] && BodySegments(Lines(docs))[|BodySegments(Lines(docs))| - 1] != []
    ensures var lines := Lines(docs);
      && |SectionsWithFinal(docs)| == |SectionNames(lines)|
      && forall i :: 0 <= i < |SectionNames(lines)| ==>
           SectionsWithFinal(docs)[i] == Section(SectionNames(lines)[i], FormatComments(WithNewlines(BodySegments(lines)[i])))
  {
    ScanMatchesSegments(FormatComments, Lines(docs));
  }

  /** A one-line description gives no section as written, and itself once the open section is flushed. */
  lemma {:induction false} OneLineDescriptionDropped(docs: string)
    requires docs != [] && IsPlainLine(docs)
    requires '#' !in docs && '/' !in docs && '*' !in docs
    ensures SectionsOf(docs) == []
    ensures SectionsWithFinal(docs) == [Section("Description", docs)]
  {
    LinesOfSingleLine(docs);
    var lines := Lines(docs);
    assert lines == [docs];
    AbsentFirstChar(docs, "# ");
    NoHeadingsNoSections(docs);
    NoHeadings(lines);
    SingleLineBody(docs);
    AbsentFirstChar(docs, "///");
    AbsentFirstChar(docs, "/**");
    AbsentFirstChar(docs, "**/");
    FormatCommentsOfPlainBody([docs]);
  }

  lemma SingleLineBody(line: string)
    requires !Contains(line, "# ")
    ensures Scan(FormatComments, [line]).currentBody == WithNewlines([line])
    ensures Scan(FormatComments, [line]).currentName == "Description"
  {
    assert [line][..0] == [];
    WithNewlinesAppend([], line);
  }

  /** A concrete one-line description is lost as written and kept once flushed. */
  lemma AddsTwoNumbersDropped()
    ensures SectionsOf("Adds two numbers.") == []
    ensures SectionsWithFinal("Adds two numbers.") == [Section("Description", "Adds two numbers.")]
  {
    OneLineDescriptionDropped("Adds two numbers.");
  }
}
