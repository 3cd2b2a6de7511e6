/**
 * The comment-cleaning helpers shared by every item kind: dropping the
 * ordering directive, stripping the `///`, `/**`, `**/` comment markers and
 * hiding the `# ` test lines of fenced code blocks, as rustdoc does.
 */
module DocComments {
  import opened Text
  import Export

  const INDEX_PATTERN: string := Export.RHAI_ITEM_INDEX_PATTERN

  lemma PatternIsOneLine()
    ensures INDEX_PATTERN != [] && '\n' !in INDEX_PATTERN
  {
  }

  /** The lines that do not carry the ordering directive, in order. */
  function WithoutDirective(lines: seq<string>): (r: seq<string>)
    ensures forall i :: 0 <= i < |r| ==> !Contains(r[i], INDEX_PATTERN)
    ensures |r| <= |lines|
    ensures |lines| == 1 ==> r == (if Contains(lines[0], INDEX_PATTERN) then [] else lines)
  {
    if lines == [] then []
    else
      var rest := WithoutDirective(lines[..|lines| - 1]);
      var last := lines[|lines| - 1];
      if Contains(last, INDEX_PATTERN) then rest else rest + [last]
  }

  /**
   * The filter works line by line: the kept lines of two runs of lines are
   * those of each run, in order.  With the one-line case of
   * `WithoutDirective` this pins the result down: exactly the directive
   * lines are dropped, and every other line is kept, in order.
   */
  lemma {:induction false} WithoutDirectiveConcat(a: seq<string>, b: seq<string>)
    ensures WithoutDirective(a + b) == WithoutDirective(a) + WithoutDirective(b)
    decreases |b|
  {
    if b == [] {
      assert a + b == a;
    } else {
      assert (a + b)[..|a + b| - 1] == a + b[..|b| - 1];
      assert (a + b)[|a + b| - 1] == b[|b| - 1];
      WithoutDirectiveConcat(a, b[..|b| - 1]);
    }
  }

  /** The kept lines are the input lines with the directive lines deleted, never altered or reordered. */
  lemma {:induction false} WithoutDirectiveSubsequence(lines: seq<string>)
    ensures IsSubsequence(WithoutDirective(lines), lines)
    ensures forall i :: 0 <= i < |WithoutDirective(lines)| ==> WithoutDirective(lines)[i] in lines
  {
    if lines != [] {
      var before := lines[..|lines| - 1];
      var last := lines[|lines| - 1];
      WithoutDirectiveSubsequence(before);
      SubsequenceExtend(WithoutDirective(before), before, last);
      assert before + [last] == lines;
    }
  }

  /** Position of the first line that carries the directive, or the number of lines. */
  function FirstDirectiveLine(lines: seq<string>): (k: nat)
    ensures k <= |lines|
    ensures forall i :: 0 <= i < k ==> !Contains(lines[i], INDEX_PATTERN)
    ensures k < |lines| ==> Contains(lines[k], INDEX_PATTERN)
  {
    if lines == [] then 0
    else if Contains(lines[0], INDEX_PATTERN) then 0
    else 1 + FirstDirectiveLine(lines[1..])
  }

  /** The text after the last occurrence of the directive on a line. */
  function DirectiveText(line: string): string
    requires Contains(line, INDEX_PATTERN)
  {
    RSplitOnce(line, INDEX_PATTERN).value.1
  }

  /** A line `a` + directive + `d`, with no `#` in `d`, has `d` as its directive text. */
  lemma DirectiveTextAfter(a: string, d: string)
    requires '#' !in d
    ensures Contains(a + INDEX_PATTERN + d, INDEX_PATTERN)
    ensures DirectiveText(a + INDEX_PATTERN + d) == d
  {
    RSplitOnceBeforeTail(a, INDEX_PATTERN, d);
  }

  /** A text without a line feed has itself as its only line (or none when empty). */
  lemma LinesOfSingleLine(x: string)
    ensures '\n' !in x ==> Lines(x) == (if x == [] then [] else [x])
  {
    if '\n' !in x && x != [] {
      assert IndexOf(x, '\n') == |x|;
    }
  }

  /** One comment entry with its directive-bearing lines removed. */
  function DropDirectiveLines(s: string): (r: string)
    ensures !Contains(r, INDEX_PATTERN)
    ensures '\n' !in s ==> r == (if Contains(s, INDEX_PATTERN) then "" else s)
  {
    var kept := WithoutDirective(Lines(s));
    PatternIsOneLine();
    JoinLinesAvoid(kept, INDEX_PATTERN);
    LinesOfSingleLine(s);
    Join(kept, "\n")
  }

  /**
   * `remove_extra_tokens`: each entry keeps its lines in order except those
   * that contain the directive, so no entry mentions the directive any more.
   */
  function RemoveExtraTokens(dc: seq<string>): (r: seq<string>)
    ensures |r| == |dc|
    ensures forall i :: 0 <= i < |r| ==> !Contains(r[i], INDEX_PATTERN)
    ensures forall i :: 0 <= i < |dc| && '\n' !in dc[i] ==>
      r[i] == (if Contains(dc[i], INDEX_PATTERN) then "" else dc[i])
  {
    seq(|dc|, i requires 0 <= i < |dc| => DropDirectiveLines(dc[i]))
  }

  /** The lines of a text without a carriage return carry none either. */
  lemma {:induction false} LinesWithoutCr(s: string)
    requires '\r' !in s
    ensures forall i :: 0 <= i < |Lines(s)| ==> IsPlainLine(Lines(s)[i])
    decreases |s|
  {
    if s != [] {
      var i := IndexOf(s, '\n');
      if i < |s| {
        assert forall c <- s[i + 1..] :: c in s;
        assert forall c <- s[..i] :: c in s;
        LinesWithoutCr(s[i + 1..]);
      }
    }
  }

  /**
   * For an entry without carriage returns whose last kept line is not
   * empty (`lines()` would swallow it), the lines of the cleaned entry are
   * exactly its lines without the directive lines.
   */
  lemma DropDirectiveLinesKeepsOthers(s: string)
    requires '\r' !in s
    requires var kept := WithoutDirective(Lines(s)); kept == [] || kept[|kept| - 1] != ""
    ensures Lines(DropDirectiveLines(s)) == WithoutDirective(Lines(s))
  {
    var kept := WithoutDirective(Lines(s));
    LinesWithoutCr(s);
    WithoutDirectiveSubsequence(Lines(s));
    LinesOfJoin(kept);
  }

  /** Every entry of `remove_extra_tokens` is its own lines without the directive lines. */
  lemma RemoveExtraTokensKeepsOthers(dc: seq<string>, i: nat)
    requires i < |dc| && '\r' !in dc[i]
    requires var kept := WithoutDirective(Lines(dc[i])); kept == [] || kept[|kept| - 1] != ""
    ensures Lines(RemoveExtraTokens(dc)[i]) == WithoutDirective(Lines(dc[i]))
  {
    DropDirectiveLinesKeepsOthers(dc[i]);
  }

  /** `fmt_doc_comments`: every comment marker is removed, in this order. */
  function FmtDocComments(dc: string): string
  {
    Replace(Replace(Replace(Replace(Replace(dc, "/// ", ""), "///", ""), "/**", ""), "**/", ""), "**/", "")
  }

  /** A text free of `///` is also free of `/// `. */
  lemma ContainsLonger(s: string)
    ensures Contains(s, "/// ") ==> Contains(s, "///")
  {
    if Contains(s, "/// ") {
      var i := Find(s, "/// ").value;
      assert s[i..i + 3] == s[i..i + 4][..3];
      ContainsAt(s, "///", i);
    }
  }

  /** Text that carries none of the markers comes out of `fmt_doc_comments` unchanged. */
  lemma FmtDocCommentsKeepsPlainText(dc: string)
    requires !Contains(dc, "///") && !Contains(dc, "/**") && !Contains(dc, "**/")
    ensures FmtDocComments(dc) == dc
  {
    ContainsLonger(dc);
    ReplaceAbsent(dc, "/// ", "");
    ReplaceAbsent(dc, "///", "");
    ReplaceAbsent(dc, "/**", "");
    ReplaceAbsent(dc, "**/", "");
  }

  /** Whether a code fence is open after the lines, toggled by lines that start with three backticks. */
  predicate FenceOpenAfter(lines: seq<string>)
  {
    if lines == [] then false
    else FenceOpenAfter(lines[..|lines| - 1]) != StartsWith(lines[|lines| - 1], "```")
  }

  /** A line is hidden when a fence is open before it and it starts with `# `. */
  predicate Hidden(before: seq<string>, line: string)
  {
    FenceOpenAfter(before) && StartsWith(line, "# ")
  }

  /** The lines `remove_test_code` keeps, in order. */
  function VisibleLines(lines: seq<string>): seq<string>
  {
    if lines == [] then []
    else
      var before := lines[..|lines| - 1];
      VisibleLines(before) + (if Hidden(before, lines[|lines| - 1]) then [] else [lines[|lines| - 1]])
  }

  /**
   * `remove_test_code`: scans the lines with the fence flag and keeps
   * every line except the hidden ones.
   */
  method RemoveTestCode(docComments: string) returns (r: string)
    ensures r == Join(VisibleLines(Lines(docComments)), "\n")
  {
    var lines := Lines(docComments);
    var formatted: seq<string> := [];
    var inCodeBlock := false;
    for i := 0 to |lines|
      invariant formatted == VisibleLines(lines[..i])
      invariant inCodeBlock == FenceOpenAfter(lines[..i])
    {
      assert lines[..i + 1][..i] == lines[..i];
      var line := lines[i];
      assert VisibleLines(lines[..i + 1])
        == VisibleLines(lines[..i]) + (if Hidden(lines[..i], line) then [] else [line]);
      assert FenceOpenAfter(lines[..i + 1]) == (FenceOpenAfter(lines[..i]) != StartsWith(line, "```"));
      if StartsWith(line, "```") {
        assert line[0] == '`';
        assert !Hidden(lines[..i], line);
        inCodeBlock := !inCodeBlock;
        formatted := formatted + [line];
        continue;
      }
      if !(inCodeBlock && StartsWith(line, "# ")) {
        formatted := formatted + [line];
      }
    }
    assert lines[..|lines|] == lines;
    r := Join(formatted, "\n");
  }

  /** The text `remove_test_code` returns. */
  function WithoutTestCode(docComments: string): string
  {
    Join(VisibleLines(Lines(docComments)), "\n")
  }

  /** `format_comments`: directive lines, then markers, then hidden test lines are removed. */
  function FormatComments(docComments: seq<string>): string
  {
    WithoutTestCode(FmtDocComments(Join(RemoveExtraTokens(docComments), "\n")))
  }

  /** `a` is obtained from `b` by deleting elements. */
  predicate IsSubsequence(a: seq<string>, b: seq<string>)
    decreases |b|
  {
    a == [] || (b != [] && if a[0] == b[0] then IsSubsequence(a[1..], b[1..]) else IsSubsequence(a, b[1..]))
  }

  lemma {:induction false} SubsequenceOfLast(b: seq<string>, x: string)
    ensures IsSubsequence([x], b + [x])
    decreases |b|
  {
    if b != [] && b[0] != x {
      assert (b + [x])[1..] == b[1..] + [x];
      SubsequenceOfLast(b[1..], x);
    }
  }

  lemma {:induction false} SubsequenceExtend(a: seq<string>, b: seq<string>, x: string)
    requires IsSubsequence(a, b)
    ensures IsSubsequence(a, b + [x]) && IsSubsequence(a + [x], b + [x])
    decreases |b|
  {
    if a == [] {
      SubsequenceOfLast(b, x);
      assert a + [x] == [x];
    } else {
      assert (b + [x])[1..] == b[1..] + [x];
      assert (a + [x])[0] == a[0];
      assert (a + [x])[1..] == a[1..] + [x];
      if a[0] == b[0] {
        SubsequenceExtend(a[1..], b[1..], x);
      } else {
        SubsequenceExtend(a, b[1..], x);
      }
    }
  }

  /** The kept lines are the input lines with some deleted, never reordered or altered. */
  lemma {:induction false} VisibleLinesSubsequence(lines: seq<string>)
    ensures IsSubsequence(VisibleLines(lines), lines)
  {
    if lines != [] {
      var before := lines[..|lines| - 1];
      VisibleLinesSubsequence(before);
      SubsequenceExtend(VisibleLines(before), before, lines[|lines| - 1]);
      assert before + [lines[|lines| - 1]] == lines;
      if Hidden(before, lines[|lines| - 1]) {
        assert VisibleLines(lines) == VisibleLines(before);
      } else {
        assert VisibleLines(lines) == VisibleLines(before) + [lines[|lines| - 1]];
      }
    }
  }

  /** The lines that do not start with `# `, in order. */
  function Unhashed(lines: seq<string>): seq<string>
  {
    if lines == [] then []
    else
      var last := lines[|lines| - 1];
      Unhashed(lines[..|lines| - 1]) + (if StartsWith(last, "# ") then [] else [last])
  }

  /** Only `# ` lines are ever dropped: every other line (a `#{` map literal, say) survives. */
  lemma {:induction false} VisibleLinesKeepUnhashed(lines: seq<string>)
    ensures Unhashed(VisibleLines(lines)) == Unhashed(lines)
  {
    if lines != [] {
      var before := lines[..|lines| - 1];
      var last := lines[|lines| - 1];
      VisibleLinesKeepUnhashed(before);
      if !Hidden(before, last) {
        var v := VisibleLines(before) + [last];
        assert VisibleLines(lines) == v;
        assert v[..|v| - 1] == VisibleLines(before);
      } else {
        assert VisibleLines(lines) == VisibleLines(before);
      }
    }
  }

  /** Dropping hidden lines does not change where fences open and close. */
  lemma {:induction false} VisibleLinesKeepFences(lines: seq<string>)
    ensures FenceOpenAfter(VisibleLines(lines)) == FenceOpenAfter(lines)
  {
    if lines != [] {
      var before := lines[..|lines| - 1];
      var last := lines[|lines| - 1];
      VisibleLinesKeepFences(before);
      if !Hidden(before, last) {
        var v := VisibleLines(before) + [last];
        assert VisibleLines(lines) == v;
        assert v[..|v| - 1] == VisibleLines(before);
      } else {
        assert VisibleLines(lines) == VisibleLines(before);
        HashLineIsNoFence(last);
      }
    }
  }

  /** A line cannot start both with `# ` and with three backticks. */
  lemma HashLineIsNoFence(line: string)
    ensures StartsWith(line, "# ") ==> !StartsWith(line, "```")
  {
    if StartsWith(line, "# ") {
      assert line[0] == line[..2][0];
    }
  }

  /** Removing test code twice removes nothing more, line by line. */
  lemma {:induction false} VisibleLinesIdempotent(lines: seq<string>)
    ensures VisibleLines(VisibleLines(lines)) == VisibleLines(lines)
  {
    if lines != [] {
      var before := lines[..|lines| - 1];
      var last := lines[|lines| - 1];
      VisibleLinesIdempotent(before);
      if !Hidden(before, last) {
        var v := VisibleLines(before) + [last];
        assert VisibleLines(lines) == v;
        assert v[..|v| - 1] == VisibleLines(before);
        VisibleLinesKeepFences(before);
        assert VisibleLines(v) == VisibleLines(VisibleLines(before)) + [last];
      } else {
        assert VisibleLines(lines) == VisibleLines(before);
      }
    }
  }

  /** Without `# ` lines there is nothing to hide. */
  lemma {:induction false} VisibleLinesWithoutHashLines(lines: seq<string>)
    requires forall i :: 0 <= i < |lines| ==> !StartsWith(lines[i], "# ")
    ensures VisibleLines(lines) == lines
  {
    if lines != [] {
      VisibleLinesWithoutHashLines(lines[..|lines| - 1]);
    }
  }

  /** Without fences there is nothing to hide either. */
  lemma {:induction false} VisibleLinesWithoutFences(lines: seq<string>)
    requires forall i :: 0 <= i < |lines| ==> !StartsWith(lines[i], "```")
    ensures VisibleLines(lines) == lines
    ensures !FenceOpenAfter(lines)
  {
    if lines != [] {
      VisibleLinesWithoutFences(lines[..|lines| - 1]);
    }
  }

  /** The lines of a section body, each closed by a line feed, as the section scanners collect them. */
  function WithNewlines(lines: seq<string>): (r: seq<string>)
    ensures |r| == |lines|
  {
    seq(|lines|, i requires 0 <= i < |lines| => lines[i] + "\n")
  }

  /** A fold whose pieces are the lines with a line feed is the concatenation of the lines with line feeds. */
  lemma {:induction false} FoldConcatWithNewlines(piece: string -> string, lines: seq<string>)
    requires forall i :: 0 <= i < |lines| ==> piece(lines[i]) == lines[i] + "\n"
    ensures FoldConcat(piece, lines) == Concat(WithNewlines(lines))
  {
    if lines != [] {
      var before := lines[..|lines| - 1];
      var last := lines[|lines| - 1];
      FoldConcatWithNewlines(piece, before);
      assert WithNewlines(lines) == WithNewlines(before) + [last + "\n"];
      ConcatAppend(WithNewlines(before), last + "\n");
    }
  }

  /** Joined lines that each avoid a one-line pattern avoid it as a whole. */
  lemma JoinAvoidsMarkers(lines: seq<string>)
    requires forall i :: 0 <= i < |lines| ==>
      !Contains(lines[i], "///") && !Contains(lines[i], "/**") && !Contains(lines[i], "**/")
    ensures var s := Join(lines, "\n");
      !Contains(s, "///") && !Contains(s, "/**") && !Contains(s, "**/")
  {
    JoinLinesAvoid(lines, "///");
    JoinLinesAvoid(lines, "/**");
    JoinLinesAvoid(lines, "**/");
  }

  /** A line feed-free line without `# ` does not carry the directive. */
  lemma NoHashNoDirective(x: string)
    requires !Contains(x, "# ")
    ensures !Contains(x, INDEX_PATTERN) && !StartsWith(x, "# ")
  {
    if Contains(x, INDEX_PATTERN) {
      var j := Find(x, INDEX_PATTERN).value;
      assert x[j..j + 2] == INDEX_PATTERN[..2];
      ContainsAt(x, "# ", j);
    }
  }

  /** A collected body line loses only its closing line feed in `remove_extra_tokens`. */
  lemma DropDirectiveOfBodyLine(x: string)
    requires IsPlainLine(x) && !Contains(x, "# ")
    ensures DropDirectiveLines(x + "\n") == x
  {
    IndexOfSplit(x, '\n', "");
    assert (x + "\n")[..|x|] == x;
    assert (x + "\n")[|x| + 1..] == "";
    assert Lines(x + "\n") == [x];
    NoHashNoDirective(x);
    assert WithoutDirective([x]) == [x] by {
      assert [x][..0] == [];
    }
  }

  lemma RemoveExtraTokensOfBody(lines: seq<string>)
    requires forall i :: 0 <= i < |lines| ==> IsPlainLine(lines[i]) && !Contains(lines[i], "# ")
    ensures RemoveExtraTokens(WithNewlines(lines)) == lines
  {
    forall i | 0 <= i < |lines|
      ensures RemoveExtraTokens(WithNewlines(lines))[i] == lines[i]
    {
      DropDirectiveOfBodyLine(lines[i]);
    }
  }

  /** Comment lines no cleaning step touches: single plain lines without markers or `# `, the last one not empty. */
  predicate PlainBody(lines: seq<string>)
  {
    && (forall i :: 0 <= i < |lines| ==> IsPlainLine(lines[i]) && !Contains(lines[i], "# "))
    && (forall i :: 0 <= i < |lines| ==>
          !Contains(lines[i], "///") && !Contains(lines[i], "/**") && !Contains(lines[i], "**/"))
    && (lines == [] || lines[|lines| - 1] != "")
  }

  /**
   * A section body made of plain lines (no markers, no `# `) is formatted
   * into exactly those lines joined by line feeds.
   */
  lemma FormatCommentsOfPlainBody(lines: seq<string>)
    requires PlainBody(lines)
    ensures FormatComments(WithNewlines(lines)) == Join(lines, "\n")
  {
    RemoveExtraTokensOfBody(lines);
    JoinAvoidsMarkers(lines);
    FmtDocCommentsKeepsPlainText(Join(lines, "\n"));
    LinesOfJoin(lines);
    forall i | 0 <= i < |lines| ensures !StartsWith(lines[i], "# ") {
      NoHashNoDirective(lines[i]);
    }
    VisibleLinesWithoutHashLines(lines);
  }

  // ---------------------------------------------------------------------------
  // Pieces of the section scanners

  /** A named part of a comment and its formatted text. */
  datatype Section = Section(name: string, body: string)

  /** The section scanners' fence flag after a line: any line containing three backticks toggles it. */
  function Toggle(open: bool, line: string): bool
  {
    if Contains(line, "```") then !open else open
  }

  /** The section scanners' fence flag after the lines. */
  predicate FenceAfter(lines: seq<string>)
  {
    if lines == [] then false else Toggle(FenceAfter(lines[..|lines| - 1]), lines[|lines| - 1])
  }

  /** A heading names its section with the text after the first `# `. */
  function HeadingName(line: string): string
    requires Contains(line, "# ")
  {
    SplitOnce(line, "# ").value.1
  }

  lemma WithNewlinesAppend(xs: seq<string>, x: string)
    ensures WithNewlines(xs + [x]) == WithNewlines(xs) + [x + "\n"]
  {
  }
}
