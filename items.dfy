/**
 * Documentation items of the newest snapshot: a function group or a custom
 * type with the index the by-index ordering uses, and the splitting of an
 * item's comment into named sections.
 */
module Items {
  import opened Wrappers
  import opened Text
  import opened Records
  import Export
  import opened DocComments

  /** The item-construction error of this snapshot. */
  datatype Error = ParseOrderMetadata(cause: IntErrorKind)

  datatype Item =
    | Function(rootMetadata: FunctionMetadata, metadata: seq<FunctionMetadata>, name: string, index: nat)
    | CustomType(customMetadata: CustomTypesMetadata, index: nat)

  // ---------------------------------------------------------------------------
  // The ordering directive

  /** The index a comment declares: none, a `usize`, or the parse error of its text. */
  function DirectiveIndex(docComments: seq<string>): (r: Result<Option<nat>, Error>)
    ensures r == Success(None) <==> forall i :: 0 <= i < |docComments| ==> !Contains(docComments[i], INDEX_PATTERN)
    ensures r.Success? && r.value.Some? ==> r.value.value <= USIZE_MAX
  {
    var k := FirstDirectiveLine(docComments);
    if k == |docComments| then Success(None)
    else
      match ParseUsize(DirectiveText(docComments[k]))
      case Success(n) => Success(Some(n))
      case Failure(e) => Failure(ParseOrderMetadata(e))
  }

  /** `find_index`: the first line carrying the directive decides, and the search stops there. */
  method FindIndex(docComments: seq<string>) returns (r: Result<Option<nat>, Error>)
    ensures r == DirectiveIndex(docComments)
  {
    for i := 0 to |docComments|
      invariant forall k :: 0 <= k < i ==> !Contains(docComments[k], INDEX_PATTERN)
    {
      match RSplitOnce(docComments[i], INDEX_PATTERN) {
        case Some((_, index)) =>
          assert FirstDirectiveLine(docComments) == i;
          match ParseUsize(index) {
            case Success(n) => return Success(Some(n));
            case Failure(e) => return Failure(ParseOrderMetadata(e));
          }
        case None =>
      }
    }
    return Success(None);
  }

  /** The first directive line `a # rhai-autodocs:index:n` declares index `n`. */
  lemma DirectiveIndexOfNumber(docComments: seq<string>, k: nat, a: string, n: nat)
    requires k < |docComments| && forall i :: 0 <= i < k ==> !Contains(docComments[i], INDEX_PATTERN)
    requires docComments[k] == a + INDEX_PATTERN + NatToString(n) && n <= USIZE_MAX
    ensures DirectiveIndex(docComments) == Success(Some(n))
  {
    DirectiveTextAfter(a, NatToString(n));
    ParseNatToString(n);
  }

  /** A directive with nothing after it is a parse error for an empty string. */
  lemma DirectiveIndexOfNothing(docComments: seq<string>, k: nat, a: string)
    requires k < |docComments| && forall i :: 0 <= i < k ==> !Contains(docComments[i], INDEX_PATTERN)
    requires docComments[k] == a + INDEX_PATTERN
    ensures DirectiveIndex(docComments) == Failure(ParseOrderMetadata(Empty))
  {
    DirectiveTextAfter(a, "");
    assert a + INDEX_PATTERN + "" == a + INDEX_PATTERN;
  }

  // ---------------------------------------------------------------------------
  // Building items

  /** Position of the first overload that has doc comments, or the number of overloads. */
  function FirstDocumented(metadata: seq<FunctionMetadata>): (k: nat)
    ensures k <= |metadata|
    ensures k < |metadata| ==> metadata[k].docComments.Some?
    ensures forall i :: 0 <= i < k ==> metadata[i].docComments.None?
  {
    if metadata == [] then 0
    else if metadata[0].docComments.Some? then 0
    else 1 + FirstDocumented(metadata[1..])
  }

  function CommentLines(docComments: Option<seq<string>>): seq<string>
  {
    if docComments.Some? then docComments.value else []
  }

  /** The index an item gets: 0 in alphabetical mode, the directive's in by-index mode. */
  function OrderIndex(docComments: Option<seq<string>>, options: Export.Options): Result<Option<nat>, Error>
  {
    if options.itemsOrder == Export.ByIndex then DirectiveIndex(CommentLines(docComments))
    else Success(Some(0))
  }

  /**
   * `new_function`: a group is documented by its first commented overload;
   * anonymous and undocumented groups, and in by-index mode groups without
   * a directive, give no item.
   */
  function NewFunction(metadata: seq<FunctionMetadata>, name: string, options: Export.Options): (r: Result<Option<Item>, Error>)
    ensures FirstDocumented(metadata) == |metadata| || StartsWith(name, "anon$") ==> r == Success(None)
    ensures r.Success? && r.value.Some? ==>
      var k := FirstDocumented(metadata);
      k < |metadata| && r.value.value == Function(metadata[k], metadata, name, r.value.value.index)
    ensures FirstDocumented(metadata) < |metadata| && !StartsWith(name, "anon$") ==>
      var comments := metadata[FirstDocumented(metadata)].docComments.value;
      && (options.itemsOrder == Export.Alphabetical ==> r.Success? && r.value.Some? && r.value.value.index == 0)
      && (options.itemsOrder == Export.ByIndex ==>
            && (r == Success(None) <==> forall i :: 0 <= i < |comments| ==> !Contains(comments[i], INDEX_PATTERN))
            && (r.Failure? <==> DirectiveIndex(comments).Failure?)
            && (r.Success? && r.value.Some? ==> DirectiveIndex(comments) == Success(Some(r.value.value.index))))
  {
    var k := FirstDocumented(metadata);
    if k < |metadata| && !StartsWith(name, "anon$") then
      var root := metadata[k];
      match OrderIndex(root.docComments, options)
      case Failure(e) => Failure(e)
      case Success(None) => Success(None)
      case Success(Some(index)) => Success(Some(Function(root, metadata, name, index)))
    else Success(None)
  }

  /**
   * `new_custom_type`: every custom type is an item in alphabetical mode;
   * in by-index mode only one whose comments carry the directive.
   */
  function NewCustomType(metadata: CustomTypesMetadata, options: Export.Options): (r: Result<Option<Item>, Error>)
    ensures r.Success? && r.value.Some? ==> r.value.value == CustomType(metadata, r.value.value.index)
    ensures options.itemsOrder == Export.Alphabetical ==> r == Success(Some(CustomType(metadata, 0)))
    ensures options.itemsOrder == Export.ByIndex ==>
      var comments := CommentLines(metadata.docComments);
      && (r == Success(None) <==> forall i :: 0 <= i < |comments| ==> !Contains(comments[i], INDEX_PATTERN))
      && (r.Failure? <==> DirectiveIndex(comments).Failure?)
      && (r.Success? && r.value.Some? ==> DirectiveIndex(comments) == Success(Some(r.value.value.index)))
  {
    match OrderIndex(metadata.docComments, options)
    case Failure(e) => Failure(e)
    case Success(None) => Success(None)
    case Success(Some(index)) => Success(Some(CustomType(metadata, index)))
  }

  /** `index()`: the index the item was built with. */
  function Index(item: Item): (r: nat)
    ensures item.Function? ==> r == item.index
    ensures item.CustomType? ==> r == item.index
  {
    item.index
  }

  /** `name()`: the display name of a custom type, the group name of a function. */
  function Name(item: Item): (r: string)
    ensures item.CustomType? ==> r == item.customMetadata.displayName
    ensures item.Function? ==> r == item.name
  {
    match item
    case CustomType(metadata, _) => metadata.displayName
    case Function(_, _, name, _) => name
  }

  /**
   * `heading_id()`: `<prefix>-<name>`, where the prefix is `type` for a custom
   * type and, for a function, the root overload's kind (`typeToStr`, an API
   * outside this model) with slashes and spaces removed.
   */
  function HeadingId(item: Item, typeToStr: FunctionMetadata -> string): (r: string)
    ensures EndsWith(r, "-" + Name(item))
    ensures item.CustomType? ==> r == "type-" + item.customMetadata.displayName
    ensures item.Function? ==>
      var prefix := r[..|r| - |Name(item)| - 1];
      && prefix == RemoveChars(typeToStr(item.rootMetadata), {'/', ' '})
      && (forall c <- prefix :: c != '/' && c != ' ')
      && (forall c <- typeToStr(item.rootMetadata) :: c != '/' && c != ' ' ==> c in prefix)
  {
    var prefix := match item
      case Function(root, _, _, _) => RemoveChars(typeToStr(root), {'/', ' '})
      case CustomType(_, _) => "type";
    var r := prefix + "-" + Name(item);
    assert r[|r| - |Name(item)| - 1..] == "-" + Name(item);
    assert r[..|r| - |Name(item)| - 1] == prefix;
    r
  }

  // ---------------------------------------------------------------------------
  // Sections

  /** The variables `extract_sections` updates line by line. */
  datatype Scanner = Scanner(sections: seq<Section>, currentName: string, currentBody: seq<string>, inCodeBlock: bool)

  /** A line opens a section when it holds `# `, is outside a fence and is not a directive. */
  predicate OpensSection(open: bool, line: string)
  {
    !open && Contains(line, "# ") && !Contains(line, INDEX_PATTERN)
  }

  /** One line of `extract_sections`; `format` turns a finished body into its text. */
  function ScanLine(format: seq<string> -> string, s: Scanner, line: string): Scanner
  {
    var open := Toggle(s.inCodeBlock, line);
    if OpensSection(open, line) then
      Scanner(s.sections + [Section(s.currentName, format(s.currentBody))], HeadingName(line), [], open)
    else if Contains(line, "# ") then s.(inCodeBlock := open)
    else s.(currentBody := s.currentBody + [line + "\n"], inCodeBlock := open)
  }

  /** The scanner after reading the lines. */
  function Scan(format: seq<string> -> string, lines: seq<string>): Scanner
  {
    if lines == [] then Scanner([], "Description", [], false)
    else ScanLine(format, Scan(format, lines[..|lines| - 1]), lines[|lines| - 1])
  }

  /** Everything scanned, plus the last section when its body is not empty. */
  function Finish(format: seq<string> -> string, s: Scanner): seq<Section>
  {
    if s.currentBody != [] then s.sections + [Section(s.currentName, format(s.currentBody))]
    else s.sections
  }

  /** The sections of a comment. */
  function SectionsOf(docs: string): seq<Section>
  {
    Finish(FormatComments, Scan(FormatComments, Lines(docs)))
  }

  /** `Section::extract_sections`. */
  method ExtractSections(docs: string) returns (sections: seq<Section>)
    ensures sections == SectionsOf(docs)
  {
    sections := [];
    var currentName := "Description";
    var currentBody: seq<string> := [];
    var inCodeBlock := false;
    var lines := Lines(docs);
    for i := 0 to |lines|
      invariant Scan(FormatComments, lines[..i]) == Scanner(sections, currentName, currentBody, inCodeBlock)
    {
      assert lines[..i + 1][..i] == lines[..i];
      var line := lines[i];
      if SplitOnce(line, "```").Some? {
        inCodeBlock := !inCodeBlock;
      }
      match SplitOnce(line, "# ") {
        case Some((_, name)) =>
          if !inCodeBlock && !Contains(line, INDEX_PATTERN) {
            sections := sections + [Section(currentName, FormatComments(currentBody))];
            currentName := name;
            currentBody := [];
          }
        case None =>
          currentBody := currentBody + [line + "\n"];
      }
    }
    assert lines[..|lines|] == lines;
    if currentBody != [] {
      sections := sections + [Section(currentName, FormatComments(currentBody))];
    }
  }

  // The sections described without the scanner: heading lines, and the
  // plain lines between them.

  function AddHeading(heads: seq<string>, open: bool, line: string): seq<string>
  {
    if OpensSection(open, line) then heads + [HeadingName(line)] else heads
  }

  /** The names of the heading lines, in order. */
  function Headings(lines: seq<string>): seq<string>
  {
    if lines == [] then []
    else AddHeading(Headings(lines[..|lines| - 1]), FenceAfter(lines), lines[|lines| - 1])
  }

  /** A heading starts a new segment; any other line without `# ` joins the current one. */
  function AddToSegments(segs: seq<seq<string>>, open: bool, line: string): (r: seq<seq<string>>)
    requires segs != []
    ensures |r| == |segs| + (if OpensSection(open, line) then 1 else 0)
  {
    if OpensSection(open, line) then segs + [[]]
    else if Contains(line, "# ") then segs
    else segs[..|segs| - 1] + [segs[|segs| - 1] + [line]]
  }

  /**
   * The lines without `# ` of each section, the first segment holding those
   * before any heading; one segment more than there are headings.
   */
  function Segments(lines: seq<string>): (r: seq<seq<string>>)
    ensures |r| == |Headings(lines)| + 1
  {
    if lines == [] then [[]]
    else AddToSegments(Segments(lines[..|lines| - 1]), FenceAfter(lines), lines[|lines| - 1])
  }

  /** `Description`, then the name of every heading. */
  function SectionNames(lines: seq<string>): (r: seq<string>)
    ensures |r| == |Segments(lines)|
  {
    ["Description"] + Headings(lines)
  }

  /** The `i`-th section: its name and its formatted segment. */
  function SectionAt(format: seq<string> -> string, lines: seq<string>, i: nat): Section
    requires i < |Segments(lines)|
  {
    Section(SectionNames(lines)[i], format(WithNewlines(Segments(lines)[i])))
  }

  /** A scanner state that has emitted one section per heading and holds the last segment. */
  predicate Agrees(format: seq<string> -> string, s: Scanner, heads: seq<string>, segs: seq<seq<string>>, fence: bool)
  {
    var names := ["Description"] + heads;
    && |segs| == |heads| + 1
    && s.inCodeBlock == fence
    && |s.sections| == |heads|
    && (forall i :: 0 <= i < |heads| ==> s.sections[i] == Section(names[i], format(WithNewlines(segs[i]))))
    && s.currentName == names[|heads|]
    && s.currentBody == WithNewlines(segs[|heads|])
  }

  lemma ScanLineAgrees(format: seq<string> -> string, s: Scanner, heads: seq<string>, segs: seq<seq<string>>, fence: bool, line: string)
    requires Agrees(format, s, heads, segs, fence)
    ensures var open := Toggle(fence, line);
      Agrees(format, ScanLine(format, s, line), AddHeading(heads, open, line), AddToSegments(segs, open, line), open)
  {
    var open := Toggle(fence, line);
    var h := |heads|;
    if OpensSection(open, line) {
      var names := ["Description"] + heads;
      var names' := ["Description"] + heads + [HeadingName(line)];
      assert forall i :: 0 <= i <= h ==> names'[i] == names[i];
      assert WithNewlines([]) == [];
    } else if !Contains(line, "# ") {
      var segs' := AddToSegments(segs, open, line);
      assert forall i :: 0 <= i < h ==> segs'[i] == segs[i];
      WithNewlinesAppend(segs[h], line);
    }
  }

  /** The scanner has emitted one section per heading, and holds the last segment. */
  lemma {:induction false} ScanMatchesSegments(format: seq<string> -> string, lines: seq<string>)
    ensures Agrees(format, Scan(format, lines), Headings(lines), Segments(lines), FenceAfter(lines))
  {
    if lines == [] {
      assert WithNewlines([]) == [];
    } else {
      var before := lines[..|lines| - 1];
      ScanMatchesSegments(format, before);
      ScanLineAgrees(format, Scan(format, before), Headings(before), Segments(before), FenceAfter(before), lines[|lines| - 1]);
    }
  }

  /**
   * What `extract_sections` returns: the `i`-th section is named by
   * `Description` or the `i`-th heading and holds the formatted lines of
   * its segment; the last one is left out exactly when its segment is empty.
   */
  lemma SectionsOfShape(docs: string)
    ensures var lines := Lines(docs);
      var h := |Headings(lines)|;
      && |SectionsOf(docs)| == h + (if Segments(lines)[h] == [] then 0 else 1)
      && forall i :: 0 <= i < |SectionsOf(docs)| ==> SectionsOf(docs)[i] == SectionAt(FormatComments, lines, i)
  {
    FinishShape(FormatComments, Lines(docs));
  }

  lemma FinishShape(format: seq<string> -> string, lines: seq<string>)
    ensures var out := Finish(format, Scan(format, lines));
      var h := |Headings(lines)|;
      && |out| == h + (if Segments(lines)[h] == [] then 0 else 1)
      && forall i :: 0 <= i < |out| ==> out[i] == SectionAt(format, lines, i)
  {
    ScanMatchesSegments(format, lines);
    FinishAgrees(format, Scan(format, lines), Headings(lines), Segments(lines), FenceAfter(lines));
  }

  lemma FinishAgrees(format: seq<string> -> string, s: Scanner, heads: seq<string>, segs: seq<seq<string>>, fence: bool)
    requires Agrees(format, s, heads, segs, fence)
    ensures var out := Finish(format, s);
      && |out| == |heads| + (if segs[|heads|] == [] then 0 else 1)
      && forall i :: 0 <= i < |out| ==> out[i] == Section((["Description"] + heads)[i], format(WithNewlines(segs[i])))
  {
    assert segs[|heads|] == [] <==> WithNewlines(segs[|heads|]) == [];
  }

  /** The first section, when there is one, is the description. */
  lemma FirstSectionIsDescription(docs: string)
    requires SectionsOf(docs) != []
    ensures SectionsOf(docs)[0].name == "Description"
  {
    SectionsOfShape(docs);
  }

  /** An empty comment has no sections. */
  lemma EmptyDocsHaveNoSections()
    ensures SectionsOf("") == []
  {
    SectionsOfShape("");
  }

  /** Without `# ` lines every line is part of one segment, under no heading. */
  lemma {:induction false} SegmentsWithoutHeadings(lines: seq<string>)
    requires forall i :: 0 <= i < |lines| ==> !Contains(lines[i], "# ")
    ensures Headings(lines) == [] && Segments(lines) == [lines]
  {
    if lines != [] {
      SegmentsWithoutHeadings(lines[..|lines| - 1]);
      assert lines[..|lines| - 1] + [lines[|lines| - 1]] == lines;
    }
  }

  /** A non-empty comment without `# ` lines is a single description section. */
  lemma NoHeadingsOneSection(docs: string)
    requires docs != []
    requires forall i :: 0 <= i < |Lines(docs)| ==> !Contains(Lines(docs)[i], "# ")
    ensures SectionsOf(docs) == [Section("Description", FormatComments(WithNewlines(Lines(docs))))]
  {
    SegmentsWithoutHeadings(Lines(docs));
    SectionsOfShape(docs);
  }
}
