/**
 * Function groups as the older `order_function_groups` snapshots see them
 * (a name with its overloads), and the directive lookup both share: the
 * first overload with doc comments that hold a directive line decides.
 */
module Groups {
  import opened Wrappers
  import opened Text
  import opened Records
  import opened DocComments

  /** A function name with all its overloads. */
  type Group = (string, seq<FunctionMetadata>)

  function GroupName(g: Group): string
  {
    g.0
  }

  /** The overload has doc comments and one of their lines carries the directive. */
  predicate HasDirective(m: FunctionMetadata)
  {
    m.docComments.Some? && FirstDirectiveLine(m.docComments.value) < |m.docComments.value|
  }

  /** Position of the first overload with a directive line, or the number of overloads. */
  function FirstWithDirective(overloads: seq<FunctionMetadata>): (k: nat)
    ensures k <= |overloads|
    ensures k < |overloads| ==> HasDirective(overloads[k])
    ensures forall i :: 0 <= i < k ==> !HasDirective(overloads[i])
  {
    if overloads == [] then 0
    else if HasDirective(overloads[0]) then 0
    else 1 + FirstWithDirective(overloads[1..])
  }

  /**
   * The text after the last directive occurrence on the first directive
   * line of the first overload that has one; none when no overload does.
   */
  function GroupDirective(overloads: seq<FunctionMetadata>): (r: Option<string>)
    ensures r.None? <==> forall i :: 0 <= i < |overloads| ==> !HasDirective(overloads[i])
    ensures r.Some? ==>
      var m := overloads[FirstWithDirective(overloads)];
      var c := m.docComments.value;
      r.value == DirectiveText(c[FirstDirectiveLine(c)])
  {
    var k := FirstWithDirective(overloads);
    if k == |overloads| then None
    else
      var c := overloads[k].docComments.value;
      Some(DirectiveText(c[FirstDirectiveLine(c)]))
  }

  /** The nested search: over commented overloads, then over their lines, stopping at the first hit. */
  method FindGroupDirective(overloads: seq<FunctionMetadata>) returns (r: Option<string>)
    ensures r == GroupDirective(overloads)
  {
    for j := 0 to |overloads|
      invariant forall i :: 0 <= i < j ==> !HasDirective(overloads[i])
    {
      if overloads[j].docComments.Some? {
        var comments := overloads[j].docComments.value;
        for k := 0 to |comments|
          invariant forall i :: 0 <= i < k ==> !Contains(comments[i], INDEX_PATTERN)
        {
          match RSplitOnce(comments[k], INDEX_PATTERN) {
            case Some((_, index)) =>
              assert FirstDirectiveLine(comments) == k;
              assert FirstWithDirective(overloads) == j;
              return Some(index);
            case None =>
          }
        }
        assert FirstDirectiveLine(comments) == |comments|;
      }
    }
    return None;
  }

  /** A directive `a # rhai-autodocs:index:d` on an overload's only comment line gives `d`. */
  lemma GroupDirectiveOfLine(overloads: seq<FunctionMetadata>, k: nat, a: string, d: string)
    requires k < |overloads| && forall i :: 0 <= i < k ==> !HasDirective(overloads[i])
    requires overloads[k].docComments == Some([a + INDEX_PATTERN + d]) && '#' !in d
    ensures GroupDirective(overloads) == Some(d)
  {
    DirectiveTextAfter(a, d);
    assert FirstDirectiveLine([a + INDEX_PATTERN + d]) == 0;
    assert FirstWithDirective(overloads) == k;
  }
}
