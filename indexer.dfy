/**
 * The two renumbering scripts: every line that carries the ordering
 * directive is replaced by a fresh directive line numbered from 1 in file
 * order; every other line is copied.  `rhai-autodocs-indexer.py` checks
 * its arguments first, `rhai-autodocs.py` reads the path without checking.
 * Reading and writing the files is not modelled: a file is the list of its
 * lines as Python's line iterator yields them, each with its line feed.
 *
 * The rewriting is defined for any `directive: nat -> string` that yields
 * directive lines, and the scripts use `DirectiveLine`; the properties are
 * proved for every such `directive`, so they do not depend on the exact
 * text the scripts write.
 */
module Indexer {
  import opened Wrappers
  import opened Text
  import opened DocComments

  /** What a rewritten directive line starts with, before the pattern. */
  const DIRECTIVE_INDENT: string := "    /// "

  /** The usage text the indexer prints when it is not given exactly one path. */
  const USAGE: string :=
    "usage: rhai-autodocs-indexer.py <path-to-source-file>\n\n"
    + "    This script searches for any `# rhai-autodocs:index:` comment and\n"
    + "    automatically adds the index number following the order of the function\n"
    + "    in the source file.\n\n"
    + "    See the `FunctionOrder::ByIndex` option from the rhai-autodocs crate.\n"

  /** A line the scripts renumber: it contains the directive anywhere. */
  predicate IsDirective(line: string)
  {
    Contains(line, INDEX_PATTERN)
  }

  /** The line the scripts write for the `k`-th directive. */
  function DirectiveLine(k: nat): (r: string)
    ensures IsDirective(r)
  {
    var r := DIRECTIVE_INDENT + INDEX_PATTERN + NatToString(k) + "\n";
    assert r[|DIRECTIVE_INDENT|..|DIRECTIVE_INDENT| + |INDEX_PATTERN|] == INDEX_PATTERN;
    ContainsAt(r, INDEX_PATTERN, |DIRECTIVE_INDENT|);
    r
  }

  /** `directive` numbers lines that are themselves directive lines. */
  ghost predicate Marks(directive: nat -> string)
  {
    forall k: nat :: IsDirective(directive(k))
  }

  lemma DirectiveLineMarks()
    ensures Marks(DirectiveLine)
  {
  }

  /** The number of directive lines in `lines`. */
  function Directives(lines: seq<string>): (n: nat)
    ensures n <= |lines|
  {
    if lines == [] then 0
    else Directives(lines[..|lines| - 1]) + (if IsDirective(lines[|lines| - 1]) then 1 else 0)
  }

  /** What `line` becomes when the lines `above` come before it. */
  function NewLine(directive: nat -> string, above: seq<string>, line: string): string
  {
    if IsDirective(line) then directive(Directives(above) + 1) else line
  }

  /** The rewritten file: each line in turn, the counter advancing on directive lines only. */
  function RenumberedWith(directive: nat -> string, lines: seq<string>): (r: seq<string>)
    ensures |r| == |lines|
  {
    if lines == [] then []
    else
      var init := lines[..|lines| - 1];
      RenumberedWith(directive, init) + [NewLine(directive, init, lines[|lines| - 1])]
  }

  /** What the scripts write. */
  function Renumbered(lines: seq<string>): (r: seq<string>)
    ensures |r| == |lines|
  {
    RenumberedWith(DirectiveLine, lines)
  }

  /** One more line: its rewrite is appended, and the count grows on a directive line. */
  lemma RenumberStep(directive: nat -> string, lines: seq<string>, i: nat)
    requires i < |lines|
    ensures RenumberedWith(directive, lines[..i + 1])
         == RenumberedWith(directive, lines[..i]) + [NewLine(directive, lines[..i], lines[i])]
    ensures Directives(lines[..i + 1]) == Directives(lines[..i]) + (if IsDirective(lines[i]) then 1 else 0)
  {
    assert lines[..i + 1][..i] == lines[..i];
  }

  /** The loop both scripts run, with `function_order` starting at 1. */
  method Renumber(lines: seq<string>) returns (newLines: seq<string>)
    ensures newLines == Renumbered(lines)
  {
    var functionOrder := 1;
    newLines := [];
    for i := 0 to |lines|
      invariant functionOrder == Directives(lines[..i]) + 1
      invariant newLines == RenumberedWith(DirectiveLine, lines[..i])
    {
      RenumberStep(DirectiveLine, lines, i);
      var line := lines[i];
      var newLine := "";
      if IsDirective(line) {
        newLine := DirectiveLine(functionOrder);
        functionOrder := functionOrder + 1;
      } else {
        newLine := line;
      }
      assert newLine == NewLine(DirectiveLine, lines[..i], line);
      newLines := newLines + [newLine];
    }
    assert lines[..|lines|] == lines;
  }

  /**
   * Line by line: a directive line becomes the directive numbered one past
   * the directives above it, any other line is copied.
   */
  lemma {:induction false} RenumberedLines(directive: nat -> string, lines: seq<string>)
    ensures forall i {:trigger RenumberedWith(directive, lines)[i]} :: 0 <= i < |lines| ==>
      RenumberedWith(directive, lines)[i] == NewLine(directive, lines[..i], lines[i])
  {
    if lines != [] {
      var init := lines[..|lines| - 1];
      RenumberedLines(directive, init);
      forall i | 0 <= i < |lines|
        ensures RenumberedWith(directive, lines)[i] == NewLine(directive, lines[..i], lines[i])
      {
        if i < |init| {
          assert init[..i] == lines[..i];
          assert lines[i] == init[i];
        } else {
          assert lines[..i] == init;
        }
      }
    }
  }

  /** Non-directive lines are copied unchanged. */
  lemma {:induction false} OtherLinesCopied(directive: nat -> string, lines: seq<string>, i: nat)
    requires i < |lines| && !IsDirective(lines[i])
    ensures RenumberedWith(directive, lines)[i] == lines[i]
  {
    var init := lines[..|lines| - 1];
    if i < |init| {
      OtherLinesCopied(directive, init, i);
      assert lines[i] == init[i];
    }
  }

  /** The `i`-th line, a directive, is rewritten to the directive numbered one past those above it. */
  lemma {:induction false} DirectiveNumbered(directive: nat -> string, lines: seq<string>, i: nat)
    requires i < |lines| && IsDirective(lines[i])
    ensures RenumberedWith(directive, lines)[i] == directive(Directives(lines[..i]) + 1)
  {
    var n := |lines| - 1;
    var init := lines[..n];
    assert RenumberedWith(directive, lines) == RenumberedWith(directive, init) + [NewLine(directive, init, lines[n])];
    if i < n {
      DirectiveNumbered(directive, init, i);
      assert init[..i] == lines[..i] && init[i] == lines[i];
    } else {
      assert lines[..i] == init;
    }
  }

  /** The count of directives grows by one past each directive line. */
  lemma {:induction false} DirectivesGrow(lines: seq<string>, i: nat, j: nat)
    requires i < j <= |lines| && IsDirective(lines[i])
    ensures Directives(lines[..i]) < Directives(lines[..j])
    decreases j
  {
    assert lines[..i + 1][..i] == lines[..i];
    if j > i + 1 {
      DirectivesGrow(lines, i, j - 1);
      assert lines[..j][..j - 1] == lines[..j - 1];
    }
  }

  /**
   * The numbers go up strictly in file order: a directive line above
   * another one gets a smaller number.
   */
  lemma NumbersIncrease(directive: nat -> string, lines: seq<string>, i: nat, j: nat)
    requires i < j < |lines| && IsDirective(lines[i]) && IsDirective(lines[j])
    ensures Directives(lines[..i]) + 1 < Directives(lines[..j]) + 1
    ensures RenumberedWith(directive, lines)[i] == directive(Directives(lines[..i]) + 1)
    ensures RenumberedWith(directive, lines)[j] == directive(Directives(lines[..j]) + 1)
  {
    DirectiveNumbered(directive, lines, i);
    DirectiveNumbered(directive, lines, j);
    DirectivesGrow(lines, i, j);
  }

  /**
   * No number is skipped: for each `k` from 1 to the number of directive
   * lines there is a directive line numbered `k`.
   */
  lemma {:induction false} NumbersConsecutive(lines: seq<string>, k: nat)
    requires 1 <= k <= Directives(lines)
    ensures exists i :: 0 <= i < |lines| && IsDirective(lines[i]) && Directives(lines[..i]) + 1 == k
  {
    var init := lines[..|lines| - 1];
    if k <= Directives(init) {
      NumbersConsecutive(init, k);
      var i :| 0 <= i < |init| && IsDirective(init[i]) && Directives(init[..i]) + 1 == k;
      assert init[i] == lines[i] && init[..i] == lines[..i];
    } else {
      assert lines[..|lines| - 1] == init;
      assert IsDirective(lines[|lines| - 1]) && Directives(lines[..|lines| - 1]) + 1 == k;
    }
  }

  /** Rewriting keeps the number of directive lines. */
  lemma {:induction false} RenumberedDirectives(directive: nat -> string, lines: seq<string>)
    requires Marks(directive)
    ensures Directives(RenumberedWith(directive, lines)) == Directives(lines)
  {
    if lines != [] {
      var init := lines[..|lines| - 1];
      RenumberedDirectives(directive, init);
      var r := RenumberedWith(directive, lines);
      assert r[..|r| - 1] == RenumberedWith(directive, init);
    }
  }

  /** A rewritten line is rewritten to itself when the same number of directives precede it. */
  lemma NewLineStable(directive: nat -> string, a: seq<string>, b: seq<string>, line: string)
    requires Marks(directive) && Directives(a) == Directives(b)
    ensures NewLine(directive, b, NewLine(directive, a, line)) == NewLine(directive, a, line)
  {
    if IsDirective(line) {
      assert IsDirective(directive(Directives(a) + 1));
    }
  }

  /** Running a script on its own output changes nothing. */
  lemma {:induction false} RenumberedIdempotent(directive: nat -> string, lines: seq<string>)
    requires Marks(directive)
    ensures RenumberedWith(directive, RenumberedWith(directive, lines)) == RenumberedWith(directive, lines)
  {
    if lines != [] {
      var init := lines[..|lines| - 1];
      var r := RenumberedWith(directive, lines);
      assert r[..|r| - 1] == RenumberedWith(directive, init);
      RenumberedIdempotent(directive, init);
      RenumberedDirectives(directive, init);
      NewLineStable(directive, init, RenumberedWith(directive, init), lines[|lines| - 1]);
    }
  }

  /**
   * For the line the scripts write: running a script on its output writes
   * the same file again, with as many directive lines as the input.
   */
  lemma ScriptOutputStable(lines: seq<string>)
    ensures Renumbered(Renumbered(lines)) == Renumbered(lines)
    ensures Directives(Renumbered(lines)) == Directives(lines)
  {
    DirectiveLineMarks();
    RenumberedIdempotent(DirectiveLine, lines);
    RenumberedDirectives(DirectiveLine, lines);
  }

  /** How a script run ends: the usage text and a status, a crash, or the new file's path and lines. */
  datatype Outcome =
    | Exit(message: string, status: int)
    | Crash
    | Written(path: string, lines: seq<string>)

  /**
   * `rhai-autodocs-indexer.py`: the argument vector, program name
   * included, must hold exactly one path, or the usage text is printed and
   * the script exits with status 1; the output goes next to the input with
   * `.autodocs` appended.
   */
  method RunIndexer(argv: seq<string>, source: seq<string>) returns (r: Outcome)
    ensures |argv| != 2 <==> r == Exit(USAGE, 1)
    ensures |argv| == 2 ==> r == Written(argv[1] + ".autodocs", Renumbered(source))
  {
    if |argv| != 2 {
      return Exit(USAGE, 1);
    }
    var file := argv[1];
    var newLines := Renumber(source);
    return Written(file + ".autodocs", newLines);
  }

  /**
   * `rhai-autodocs.py`: no check; without a path `sys.argv[1]` raises,
   * and any arguments past the first are ignored.
   */
  method RunAutodocs(argv: seq<string>, source: seq<string>) returns (r: Outcome)
    ensures |argv| < 2 <==> r == Crash
    ensures |argv| >= 2 ==> r == Written(argv[1] + ".autodocs", Renumbered(source))
  {
    if |argv| < 2 {
      return Crash;
    }
    var file := argv[1];
    var newLines := Renumber(source);
    return Written(file + ".autodocs", newLines);
  }
}
