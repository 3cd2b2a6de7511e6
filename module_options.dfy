/**
 * The options of the `module` snapshot: the builder, the function-group
 * ordering with its pre-processing errors, and the section formats for
 * mdBook and Docusaurus.
 */
module ModuleOptions {
  import opened Wrappers
  import opened Text
  import opened Records
  import opened Sorting
  import opened Groups
  import opened DocComments

  datatype MarkdownProcessor = MdBook | Docusaurus
  datatype FunctionOrder = Alphabetical | ByIndex
  datatype SectionFormat = Rust | Tabs

  datatype Options = Options(
    functionsOrder: FunctionOrder,
    sectionsFormat: SectionFormat,
    includeStandardPackages: bool,
    markdownProcessor: MarkdownProcessor)

  /** `options()`: every field at its default; Docusaurus is the default processor. */
  function DefaultOptions(): (r: Options)
    ensures r.functionsOrder == Alphabetical && r.sectionsFormat == Rust
    ensures !r.includeStandardPackages && r.markdownProcessor == Docusaurus
  {
    Options(Alphabetical, Rust, false, Docusaurus)
  }

  function IncludeStandardPackages(o: Options, enabled: bool): (r: Options)
    ensures r.includeStandardPackages == enabled
    ensures r.functionsOrder == o.functionsOrder && r.sectionsFormat == o.sectionsFormat
    ensures r.markdownProcessor == o.markdownProcessor
  {
    o.(includeStandardPackages := enabled)
  }

  function OrderFunctionsWith(o: Options, order: FunctionOrder): (r: Options)
    ensures r.functionsOrder == order
    ensures r.sectionsFormat == o.sectionsFormat && r.includeStandardPackages == o.includeStandardPackages
    ensures r.markdownProcessor == o.markdownProcessor
  {
    o.(functionsOrder := order)
  }

  function FormatSectionsWith(o: Options, format: SectionFormat): (r: Options)
    ensures r.sectionsFormat == format
    ensures r.functionsOrder == o.functionsOrder && r.includeStandardPackages == o.includeStandardPackages
    ensures r.markdownProcessor == o.markdownProcessor
  {
    o.(sectionsFormat := format)
  }

  function ForMarkdownProcessor(o: Options, processor: MarkdownProcessor): (r: Options)
    ensures r.markdownProcessor == processor
    ensures r.functionsOrder == o.functionsOrder && r.sectionsFormat == o.sectionsFormat
    ensures r.includeStandardPackages == o.includeStandardPackages
  {
    o.(markdownProcessor := processor)
  }

  // ---------------------------------------------------------------------------
  // Ordering function groups

  function OutOfBoundsMessage(fn: string): string
  {
    "`# rhai-autodocs:index:?` index is out of bounds for the function `" + fn
    + "`. It is probably because you set `# rhai-autodocs:index:?` for functions that are polymorphes of each other."
    + " Try to set your documentation only on one function of the group and add the `#[doc(hidden)]` pre-processor to the rest of the functions."
  }

  function MissingMessage(namespace: string, fn: string): string
  {
    "missing order metadata in function " + namespace + "/" + fn
  }

  /** The panic a debug build raises for `0 - 1` on `usize`. */
  const UNDERFLOW: string := "attempt to subtract with overflow"

  /** Why a group cannot be placed. */
  datatype SlotError =
    | MissingDirective
    | Unparsable(cause: IntErrorKind)
    | ZeroIndex
    | OutOfBounds(slot: nat)

  /** The fault reported for a group named `fn` in module `namespace`. */
  function ToFault(namespace: string, fn: string, e: SlotError): (r: Fault)
    ensures e == ZeroIndex <==> r.Panic?
  {
    match e
    case MissingDirective => Raised(PreProcessing(MissingMessage(namespace, fn)))
    case Unparsable(cause) => Raised(PreProcessing("failed to parsed order metadata: " + IntErrorMessage(cause)))
    case ZeroIndex => Panic(UNDERFLOW)
    case OutOfBounds(_) => Raised(PreProcessing(OutOfBoundsMessage(fn)))
  }

  /**
   * The slot (0-based) a group's directive text names among `len` slots,
   * or why it names none: no directive, a text that is not a `usize`,
   * index 0, or an index past the end.
   */
  function SlotOf(directive: Option<string>, len: nat): (r: Result<nat, SlotError>)
    ensures r.Success? ==> r.value < len
  {
    match directive
    case None => Failure(MissingDirective)
    case Some(text) =>
      match ParseUsize(text)
      case Failure(e) => Failure(Unparsable(e))
      case Success(n) =>
        if n == 0 then Failure(ZeroIndex)
        else if n - 1 < len then Success(n - 1)
        else Failure(OutOfBounds(n - 1))
  }

  /**
   * The slot is `n - 1` for a directive text that parses to `n` with
   * `1 <= n <= len`; otherwise the reason names what went wrong.
   */
  lemma SlotOfCases(directive: Option<string>, len: nat)
    ensures var r := SlotOf(directive, len);
      && (r == Failure(MissingDirective) <==> directive.None?)
      && (directive.Some? ==>
            match ParseUsize(directive.value)
            case Failure(e) => r == Failure(Unparsable(e))
            case Success(n) =>
              && (n == 0 <==> r == Failure(ZeroIndex))
              && (n > len <==> r.Failure? && r.error.OutOfBounds?)
              && (n > len ==> r == Failure(OutOfBounds(n - 1)))
              && (1 <= n <= len <==> r == Success(n - 1)))
  {
  }

  /** Every slot in `slots` lies among `len` slots. */
  ghost predicate SlotsWithin(slots: seq<Result<nat, SlotError>>, len: nat)
  {
    forall i :: 0 <= i < |slots| && slots[i].Success? ==> slots[i].value < len
  }

  /** The slot each group's directive names, group by group. */
  function SlotsOf(groups: seq<Group>): (slots: seq<Result<nat, SlotError>>)
    ensures |slots| == |groups| && SlotsWithin(slots, |groups|)
  {
    seq(|groups|, i requires 0 <= i < |groups| => SlotOf(GroupDirective(groups[i].1), |groups|))
  }

  /**
   * The clone after the first `n` groups have been placed at the slots
   * `slots` names for them, or the first group that names none.
   */
  function PlaceGroups(slots: seq<Result<nat, SlotError>>, groups: seq<Group>, n: nat): (r: Result<seq<Group>, (string, SlotError)>)
    requires n <= |groups| == |slots| && SlotsWithin(slots, |groups|)
    ensures r.Success? ==> |r.value| == |groups|
  {
    if n == 0 then Success(groups)
    else
      match PlaceGroups(slots, groups, n - 1)
      case Failure(f) => Failure(f)
      case Success(ordered) =>
        match slots[n - 1]
        case Failure(e) => Failure((groups[n - 1].0, e))
        case Success(k) => Success(ordered[k := groups[n - 1]])
  }

  /** What `order_function_groups` returns. */
  function OrderedGroups(order: FunctionOrder, namespace: string, groups: seq<Group>): Result<seq<Group>, Fault>
  {
    match order
    case Alphabetical => Success(SortBy(groups, GroupName, LexLe))
    case ByIndex =>
      match PlaceGroups(SlotsOf(groups), groups, |groups|)
      case Success(ordered) => Success(ordered)
      case Failure((fn, e)) => Failure(ToFault(namespace, fn, e))
  }

  /** Once a group cannot be placed, the later groups do not matter. */
  lemma {:induction false} PlaceGroupsStops(slots: seq<Result<nat, SlotError>>, groups: seq<Group>, n: nat, m: nat)
    requires n <= m <= |groups| == |slots| && SlotsWithin(slots, |groups|) && PlaceGroups(slots, groups, n).Failure?
    ensures PlaceGroups(slots, groups, m) == PlaceGroups(slots, groups, n)
  {
    if m > n {
      PlaceGroupsStops(slots, groups, n, m - 1);
    }
  }

  /** One by-index step: the group at `i` overwrites the slot it names, or its failure is the final result. */
  lemma PlaceStep(slots: seq<Result<nat, SlotError>>, groups: seq<Group>, i: nat, ordered: seq<Group>)
    requires i < |groups| == |slots| && SlotsWithin(slots, |groups|)
    requires PlaceGroups(slots, groups, i) == Success(ordered)
    ensures slots[i].Success? ==> slots[i].value < |ordered|
    ensures slots[i].Success? ==>
      PlaceGroups(slots, groups, i + 1) == Success(ordered[slots[i].value := groups[i]])
    ensures slots[i].Failure? ==> PlaceGroups(slots, groups, |groups|) == Failure((groups[i].0, slots[i].error))
  {
    if slots[i].Failure? {
      PlaceGroupsStops(slots, groups, i + 1, |groups|);
    }
  }

  /** The slot group `i` names among all groups: the nested directive search, then the index check. */
  method SlotOfGroup(groups: seq<Group>, i: nat) returns (found: Result<nat, SlotError>)
    requires i < |groups|
    ensures found == SlotsOf(groups)[i]
  {
    var directive := FindGroupDirective(groups[i].1);
    found := SlotOf(directive, |groups|);
  }

  /** The by-index loop: every group overwrites the slot of the clone it names, or stops the loop. */
  method PlaceByIndex(groups: seq<Group>) returns (r: Result<seq<Group>, (string, SlotError)>)
    ensures r == PlaceGroups(SlotsOf(groups), groups, |groups|)
  {
    ghost var slots := SlotsOf(groups);
    var ordered := groups;
    for i := 0 to |groups|
      invariant PlaceGroups(slots, groups, i) == Success(ordered)
    {
      var group := groups[i];
      var found := SlotOfGroup(groups, i);
      PlaceStep(slots, groups, i, ordered);
      match found {
        case Success(k) =>
          ordered := ordered[k := group];
        case Failure(error) =>
          return Failure((group.0, error));
      }
    }
    return Success(ordered);
  }

  /**
   * `FunctionOrder::order_function_groups`: alphabetical mode sorts in
   * place; by-index mode overwrites slots of a clone, group by group.
   */
  method OrderFunctionGroups(order: FunctionOrder, namespace: string, groups: seq<Group>)
    returns (r: Result<seq<Group>, Fault>)
    ensures r == OrderedGroups(order, namespace, groups)
  {
    if order == Alphabetical {
      var sorted := new Group[|groups|](i requires 0 <= i < |groups| => groups[i]);
      assert sorted[..] == groups;
      SortInPlace(sorted, GroupName, LexLe);
      return Success(sorted[..]);
    }
    var placed := PlaceByIndex(groups);
    match placed {
      case Success(ordered) =>
        return Success(ordered);
      case Failure((name, error)) =>
        return Failure(ToFault(namespace, name, error));
    }
  }

  // Properties of the by-index placement, for any slots.

  /** Placing succeeds exactly when every group names a slot. */
  lemma {:induction false} PlaceGroupsSucceeds(slots: seq<Result<nat, SlotError>>, groups: seq<Group>, n: nat)
    requires n <= |groups| == |slots| && SlotsWithin(slots, |groups|)
    ensures PlaceGroups(slots, groups, n).Success? <==> forall i :: 0 <= i < n ==> slots[i].Success?
  {
    if n > 0 {
      PlaceGroupsSucceeds(slots, groups, n - 1);
    }
  }

  /** A failure reports the first group that names no slot, with its reason. */
  lemma {:induction false} PlaceGroupsFailure(slots: seq<Result<nat, SlotError>>, groups: seq<Group>, n: nat)
    requires n <= |groups| == |slots| && SlotsWithin(slots, |groups|) && PlaceGroups(slots, groups, n).Failure?
    ensures exists i :: && 0 <= i < n && (forall j :: 0 <= j < i ==> slots[j].Success?)
                        && slots[i].Failure?
                        && PlaceGroups(slots, groups, n) == Failure((groups[i].0, slots[i].error))
  {
    if PlaceGroups(slots, groups, n - 1).Failure? {
      PlaceGroupsFailure(slots, groups, n - 1);
    } else {
      PlaceGroupsSucceeds(slots, groups, n - 1);
    }
  }

  /** A slot no group names keeps the group the clone had there. */
  lemma {:induction false} UnnamedSlotKept(slots: seq<Result<nat, SlotError>>, groups: seq<Group>, n: nat, k: nat)
    requires n <= |groups| == |slots| && k < |groups| && SlotsWithin(slots, |groups|) && PlaceGroups(slots, groups, n).Success?
    requires forall i :: 0 <= i < n ==> slots[i] != Success(k)
    ensures PlaceGroups(slots, groups, n).value[k] == groups[k]
  {
    if n > 0 {
      UnnamedSlotKept(slots, groups, n - 1, k);
    }
  }

  /** A slot holds the last group that names it: a later duplicate overwrites an earlier one. */
  lemma {:induction false} LastNamingGroupWins(slots: seq<Result<nat, SlotError>>, groups: seq<Group>, n: nat, i: nat, k: nat)
    requires n <= |groups| == |slots| && i < n && SlotsWithin(slots, |groups|) && PlaceGroups(slots, groups, n).Success?
    requires slots[i] == Success(k)
    requires forall j :: i < j < n ==> slots[j] != Success(k)
    ensures PlaceGroups(slots, groups, n).value[k] == groups[i]
  {
    if i < n - 1 {
      LastNamingGroupWins(slots, groups, n - 1, i, k);
    }
  }

  /**
   * By-index mode fails exactly when some group names no slot, and then
   * reports the first such group: a panic for index 0, an error otherwise.
   */
  lemma ByIndexFault(namespace: string, groups: seq<Group>)
    ensures var slots := SlotsOf(groups);
      OrderedGroups(ByIndex, namespace, groups).Failure? <==> exists i :: 0 <= i < |groups| && slots[i].Failure?
    ensures var slots := SlotsOf(groups);
      OrderedGroups(ByIndex, namespace, groups).Failure? ==>
        exists i :: && 0 <= i < |groups| && (forall j :: 0 <= j < i ==> slots[j].Success?)
                    && slots[i].Failure?
                    && OrderedGroups(ByIndex, namespace, groups).error == ToFault(namespace, groups[i].0, slots[i].error)
  {
    var slots := SlotsOf(groups);
    PlaceGroupsSucceeds(slots, groups, |groups|);
    if PlaceGroups(slots, groups, |groups|).Failure? {
      PlaceGroupsFailure(slots, groups, |groups|);
    }
  }

  /** Alphabetical mode sorts by group name, keeps every group, and keeps equal names in input order. */
  lemma AlphabeticalGroups(namespace: string, groups: seq<Group>)
    ensures var r := OrderedGroups(Alphabetical, namespace, groups).value;
      && multiset(r) == multiset(groups)
      && (forall i, j :: 0 <= i < j < |r| ==> LexLe(GroupName(r[i]), GroupName(r[j])))
      && (forall name :: WithKey(r, GroupName, name) == WithKey(groups, GroupName, name))
  {
    LexLeTotalPreorder();
    SortByPermutation(groups, GroupName, LexLe);
    SortBySorted(groups, GroupName, LexLe);
    forall name ensures WithKey(SortBy(groups, GroupName, LexLe), GroupName, name) == WithKey(groups, GroupName, name) {
      SortByStable(groups, GroupName, LexLe, name);
    }
  }
}
