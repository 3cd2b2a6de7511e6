/**
 * The options of the older crate-root snapshot: the builder without a
 * markdown processor, the function-group ordering whose bad indices
 * panic on `ordered[index - 1]`, and the single tabs format whose lines
 * are glued together.  The directive lookup and the slot placement are
 * the ones the `module` snapshot shares; only the faults and the markup
 * differ.
 */
module LegacyOptions {
  import opened Wrappers
  import opened Text
  import opened Records
  import opened Sorting
  import opened Groups
  import opened DocComments
  import opened ModuleOptions
  import opened ModuleSections

  /** The older options: function order, section format and the standard-package switch. */
  datatype Options = Options(
    functionsOrder: FunctionOrder,
    sectionsFormat: SectionFormat,
    includeStandardPackages: bool)

  /** `options()`: alphabetical order, Rust sections, standard packages left out. */
  function DefaultOptions(): (r: Options)
    ensures r.functionsOrder == Alphabetical && r.sectionsFormat == Rust && !r.includeStandardPackages
  {
    Options.Options(Alphabetical, Rust, false)
  }

  function IncludeStandardPackages(o: Options, enabled: bool): (r: Options)
    ensures r.includeStandardPackages == enabled
    ensures r.functionsOrder == o.functionsOrder && r.sectionsFormat == o.sectionsFormat
  {
    o.(includeStandardPackages := enabled)
  }

  function OrderFunctionsWith(o: Options, order: FunctionOrder): (r: Options)
    ensures r.functionsOrder == order
    ensures r.sectionsFormat == o.sectionsFormat && r.includeStandardPackages == o.includeStandardPackages
  {
    o.(functionsOrder := order)
  }

  function FormatSectionsWith(o: Options, format: SectionFormat): (r: Options)
    ensures r.sectionsFormat == format
    ensures r.functionsOrder == o.functionsOrder && r.includeStandardPackages == o.includeStandardPackages
  {
    o.(sectionsFormat := format)
  }

  // ---------------------------------------------------------------------------
  // Ordering function groups

  /**
   * The fault of a group named `fn` among `len` groups: a missing
   * directive or an unparsable index is a pre-processing error (the bare
   * parse message, without the module's prefix); index 0 underflows and
   * an index past the end fails Rust's bounds check, both panics.
   */
  function LegacyFault(len: nat, fn: string, e: SlotError): (r: Fault)
    ensures r.Panic? <==> e.ZeroIndex? || e.OutOfBounds?
    ensures e.Unparsable? ==> r == Raised(PreProcessing(IntErrorMessage(e.cause)))
  {
    match e
    case MissingDirective => Raised(PreProcessing("missing ord metadata in function " + fn))
    case Unparsable(cause) => Raised(PreProcessing(IntErrorMessage(cause)))
    case ZeroIndex => Panic(UNDERFLOW)
    case OutOfBounds(slot) =>
      Panic("index out of bounds: the len is " + NatToString(len) + " but the index is " + NatToString(slot))
  }

  /** What the older `order_function_groups` returns, or the panic it raises. */
  function LegacyOrderedGroups(order: FunctionOrder, groups: seq<Group>): Result<seq<Group>, Fault>
  {
    match order
    case Alphabetical => Success(SortBy(groups, GroupName, LexLe))
    case ByIndex =>
      match PlaceGroups(SlotsOf(groups), groups, |groups|)
      case Success(ordered) => Success(ordered)
      case Failure((fn, e)) => Failure(LegacyFault(|groups|, fn, e))
  }

  /** The older `FunctionOrder::order_function_groups`. */
  method LegacyOrderFunctionGroups(order: FunctionOrder, groups: seq<Group>) returns (r: Result<seq<Group>, Fault>)
    ensures r == LegacyOrderedGroups(order, groups)
  {
    if order == Alphabetical {
      var sorted := new Group[|groups|](i requires 0 <= i < |groups| => groups[i]);
      assert sorted[..] == groups;
      SortInPlace(sorted, GroupName, LexLe);
      return Success(sorted[..]);
    }
    var placed := PlaceByIndex(groups);
    match placed {
      case Success(ordered) =>
        return Success(ordered);
      case Failure((name, error)) =>
        return Failure(LegacyFault(|groups|, name, error));
    }
  }

  /**
   * The two snapshots order alike and fail on the same group; they differ
   * only in what they report: the older one panics on every bad index,
   * the `module` one only on index 0.
   */
  lemma SnapshotsAgreeOnOrder(order: FunctionOrder, namespace: string, groups: seq<Group>)
    ensures LegacyOrderedGroups(order, groups).Success? <==> OrderedGroups(order, namespace, groups).Success?
    ensures LegacyOrderedGroups(order, groups).Success? ==>
      LegacyOrderedGroups(order, groups).value == OrderedGroups(order, namespace, groups).value
    ensures order == ByIndex && LegacyOrderedGroups(order, groups).Failure? ==>
      var slots := SlotsOf(groups);
      exists i :: && 0 <= i < |groups| && slots[i].Failure?
                  && LegacyOrderedGroups(order, groups).error == LegacyFault(|groups|, groups[i].0, slots[i].error)
                  && OrderedGroups(order, namespace, groups).error == ToFault(namespace, groups[i].0, slots[i].error)
  {
    if order == ByIndex {
      var slots := SlotsOf(groups);
      if PlaceGroups(slots, groups, |groups|).Failure? {
        PlaceGroupsFailure(slots, groups, |groups|);
      }
    }
  }

  // ---------------------------------------------------------------------------
  // The older tabs format

  function DescriptionDiv(fn: string): string
  {
    "<div id=\"" + fn + "-description\" style=\"display: block;\" class=\"tabcontent active\">"
  }

  function SectionDiv(fn: string, section: string): string
  {
    "<div id=\"" + fn + "-" + section + "\" class=\"tabcontent\">"
  }

  function ButtonsOpen(fn: string): string
  {
    "<div class=\"tab\">\n<button class=\"tablinks\" onclick=\"openTab(event, '" + fn
    + "-description')\">description</button>\n                    "
  }

  function Button(fn: string, section: string): string
  {
    "\n<button class=\"tablinks\" onclick=\"openTab(event, '" + fn + "-" + section + "')\">" + section
    + "</button>\n                        "
  }

  function DivSwitches(fn: string): string -> string
  {
    (section: string) => "</div>" + SectionDiv(fn, section)
  }

  function Buttons(fn: string): string -> string
  {
    (section: string) => Button(fn, section)
  }

  /** An older-format line outside a heading is pushed as it is, with nothing after it. */
  function Verbatim(line: string): (r: string)
    ensures |r| == |line| && forall i :: 0 <= i < |r| ==> r[i] == line[i]
  {
    line
  }

  /** The tab content: the description div, the folded lines, the closing `</div>`. */
  function LegacyTabContent(fn: string, docs: string): string
  {
    DescriptionDiv(fn) + FoldConcat(TabPieces(DivSwitches(fn), Verbatim), Lines(docs)) + "</div>"
  }

  function LegacyTabs(fn: string, docs: string): string
  {
    var buttonBar := ButtonsOpen(fn) + FoldConcat(Buttons(fn), TabHeadings(Lines(docs)));
    buttonBar + "</div>" + LegacyTabContent(fn, docs)
  }

  /** What the older `fmt_sections` returns for a function's docs. */
  function LegacyFormattedSections(format: SectionFormat, fn: string, docs: string): string
  {
    match format
    case Rust => RustDetails(docs)
    case Tabs => LegacyTabs(fn, docs)
  }

  /** The older tabs: the line fold collecting section names, then the fold over the names. */
  method LegacyFmtTabs(fn: string, docs: string) returns (r: string)
    ensures r == LegacyTabs(fn, docs)
  {
    var sections, tabContent := FoldTabsCollecting(Lines(docs), DescriptionDiv(fn), DivSwitches(fn), Verbatim);
    tabContent := tabContent + "</div>";
    var bar := FoldNames(sections, ButtonsOpen(fn), Buttons(fn));
    r := bar + "</div>" + tabContent;
  }

  /** The older `SectionFormat::fmt_sections`. */
  method LegacyFmtSections(format: SectionFormat, fn: string, docs: string) returns (r: string)
    ensures r == LegacyFormattedSections(format, fn, docs)
  {
    match format {
      case Rust =>
        r := DETAILS_OPEN + docs + DETAILS_CLOSE;
      case Tabs =>
        r := LegacyFmtTabs(fn, docs);
    }
  }

  /** Lines without headings are glued together with nothing between them. */
  lemma {:induction false} PlainLinesGlued(fn: string, lines: seq<string>)
    requires forall i :: 0 <= i < |lines| ==> !Contains(lines[i], "# ")
    ensures FoldConcat(TabPieces(DivSwitches(fn), Verbatim), lines) == Concat(lines)
  {
    PlainLinesOnly(DivSwitches(fn), Verbatim, lines);
    if lines != [] {
      var before := lines[..|lines| - 1];
      var last := lines[|lines| - 1];
      PlainLinesGlued(fn, before);
      assert lines == before + [last];
      ConcatAppend(before, last);
    }
  }

  /**
   * Two plain lines end up run together in the tab content: the text
   * `a` line feed `b` renders as `ab`.
   */
  lemma TwoLinesRunTogether(fn: string, a: string, b: string)
    requires IsPlainLine(a) && IsPlainLine(b) && b != ""
    requires !Contains(a, "# ") && !Contains(b, "# ")
    ensures LegacyTabContent(fn, a + "\n" + b) == DescriptionDiv(fn) + (a + b) + "</div>"
  {
    LinesOfJoin([a, b]);
    assert Join([a, b], "\n") == a + "\n" + b;
    PlainLinesGlued(fn, [a, b]);
    assert [a, b][1..] == [b] && [b][1..] == [];
    assert Concat([b]) == b + Concat([]) == b + "";
    assert b + "" == b;
    assert Concat([a, b]) == a + b;
  }
}
