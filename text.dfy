/**
 * The string primitives of Rust's `str` (and Python's `in`) that the
 * documentation pipeline is built from: searching, splitting, replacing,
 * trimming, `lines()`, `join`, and `usize` parsing.  Strings are sequences
 * of Unicode scalar values, so searching by `char` agrees with Rust's
 * byte-level searching on valid UTF-8.
 */
module Text {
  import opened Wrappers

  /** `p` occurs in `s` starting at position `i`. */
  predicate OccursAt(s: string, p: string, i: nat)
  {
    i + |p| <= |s| && s[i..i + |p|] == p
  }

  predicate StartsWith(s: string, p: string)
  {
    |p| <= |s| && s[..|p|] == p
  }

  predicate EndsWith(s: string, p: string)
  {
    |p| <= |s| && s[|s| - |p|..] == p
  }

  lemma ShiftOccurrence(s: string, p: string)
    requires |s| > 0
    ensures forall j: nat :: OccursAt(s[1..], p, j) ==> OccursAt(s, p, j + 1)
    ensures forall j: nat :: 0 < j ==> OccursAt(s, p, j) ==> OccursAt(s[1..], p, j - 1)
  {
    forall j: nat ensures OccursAt(s[1..], p, j) <==> OccursAt(s, p, j + 1) {
      if j + 1 + |p| <= |s| {
        assert s[1..][j..j + |p|] == s[j + 1..j + 1 + |p|];
      }
    }
  }

  lemma TruncateOccurrence(s: string, p: string)
    requires |s| > 0
    ensures forall j: nat :: OccursAt(s[..|s| - 1], p, j) ==> OccursAt(s, p, j)
    ensures forall j: nat :: j + |p| < |s| ==> OccursAt(s, p, j) ==> OccursAt(s[..|s| - 1], p, j)
  {
    forall j: nat | j + |p| < |s| ensures OccursAt(s, p, j) ==> OccursAt(s[..|s| - 1], p, j) {
      assert s[..|s| - 1][j..j + |p|] == s[j..j + |p|];
    }
  }

  /** Leftmost occurrence of `p` in `s` (Rust `str::find`). */
  function Find(s: string, p: string): (r: Option<nat>)
    ensures r.Some? ==> OccursAt(s, p, r.value)
    ensures r.Some? ==> forall j: nat :: j < r.value ==> !OccursAt(s, p, j)
    ensures r.None? ==> forall j: nat :: !OccursAt(s, p, j)
    decreases |s|
  {
    if |s| < |p| then None
    else if s[..|p|] == p then Some(0)
    else
      assert s[0..|p|] == s[..|p|];
      var r := Find(s[1..], p);
      ShiftOccurrence(s, p);
      if r.None? then None else Some(r.value + 1)
  }

  /** Rightmost occurrence of `p` in `s` (the search behind `rsplit_once`). */
  function RFind(s: string, p: string): (r: Option<nat>)
    ensures r.Some? ==> OccursAt(s, p, r.value)
    ensures r.Some? ==> forall j: nat :: r.value < j ==> !OccursAt(s, p, j)
    ensures r.None? ==> forall j: nat :: !OccursAt(s, p, j)
    decreases |s|
  {
    if |s| < |p| then None
    else if s[|s| - |p|..] == p then Some(|s| - |p|)
    else
      assert s[|s| - |p|..|s|] == s[|s| - |p|..];
      TruncateOccurrence(s, p);
      RFind(s[..|s| - 1], p)
  }

  /** `p` is a substring of `s` (Rust `str::contains`, Python `p in s`). */
  predicate Contains(s: string, p: string)
  {
    Find(s, p).Some?
  }

  /** A pattern whose first character never appears cannot occur. */
  lemma AbsentFirstChar(s: string, p: string)
    requires p != [] && p[0] !in s
    ensures !Contains(s, p)
  {
  }

  lemma ContainsAt(s: string, p: string, i: nat)
    requires OccursAt(s, p, i)
    ensures Contains(s, p)
  {
  }

  lemma OccursInPrefix(s: string, p: string, i: nat)
    requires i <= |s|
    ensures forall j: nat :: OccursAt(s[..i], p, j) ==> OccursAt(s, p, j)
  {
    forall j: nat | OccursAt(s[..i], p, j) ensures OccursAt(s, p, j) {
      assert s[..i][j..j + |p|] == s[j..j + |p|];
    }
  }

  lemma OccursInSuffix(s: string, p: string, i: nat)
    requires i <= |s|
    ensures forall j: nat :: OccursAt(s[i..], p, j) ==> OccursAt(s, p, i + j)
  {
    forall j: nat | OccursAt(s[i..], p, j) ensures OccursAt(s, p, i + j) {
      assert s[i..][j..j + |p|] == s[i + j..i + j + |p|];
    }
  }

  /** Rust `str::split_once`: split around the leftmost occurrence. */
  function SplitOnce(s: string, p: string): (r: Option<(string, string)>)
    ensures r.Some? <==> Contains(s, p)
    ensures r.Some? ==> s == r.value.0 + p + r.value.1
    ensures r.Some? && p != [] ==> !Contains(r.value.0, p)
  {
    match Find(s, p)
    case None => None
    case Some(i) =>
      assert s == s[..i] + p + s[i + |p|..];
      OccursInPrefix(s, p, i);
      Some((s[..i], s[i + |p|..]))
  }

  /** Rust `str::rsplit_once`: split around the rightmost occurrence. */
  function RSplitOnce(s: string, p: string): (r: Option<(string, string)>)
    ensures r.Some? <==> Contains(s, p)
    ensures r.Some? ==> s == r.value.0 + p + r.value.1
    ensures r.Some? && p != [] ==> !Contains(r.value.1, p)
  {
    match RFind(s, p)
    case None => None
    case Some(i) =>
      assert s == s[..i] + p + s[i + |p|..];
      OccursInSuffix(s, p, i + |p|);
      Some((s[..i], s[i + |p|..]))
  }

  /**
   * When the pattern's first character occurs nowhere else in it nor in the
   * tail, the rightmost occurrence is the one right before the tail.
   */
  lemma RSplitOnceBeforeTail(a: string, p: string, d: string)
    requires p != [] && (forall k :: 1 <= k < |p| ==> p[k] != p[0]) && p[0] !in d
    ensures RSplitOnce(a + p + d, p) == Some((a, d))
  {
    var s := a + p + d;
    assert s[|a|..|a| + |p|] == p;
    assert OccursAt(s, p, |a|);
    forall j | |a| < j < |s|
      ensures s[j] != p[0]
    {
      if j < |a| + |p| {
        assert s[j] == p[j - |a|];
      } else {
        assert s[j] == d[j - |a| - |p|];
      }
    }
    var i := RFind(s, p).value;
    assert s[i] == s[i..i + |p|][0];
    assert s[..|a|] == a;
    assert s[|a| + |p|..] == d;
  }

  /** Rust `str::strip_prefix`. */
  function StripPrefix(s: string, p: string): (r: Option<string>)
    ensures r.Some? <==> StartsWith(s, p)
    ensures r.Some? ==> s == p + r.value
  {
    if StartsWith(s, p) then Some(s[|p|..]) else None
  }

  /** Rust `str::strip_suffix`. */
  function StripSuffix(s: string, p: string): (r: Option<string>)
    ensures r.Some? <==> EndsWith(s, p)
    ensures r.Some? ==> s == r.value + p
  {
    if EndsWith(s, p) then Some(s[..|s| - |p|]) else None
  }

  /** Rust `"".replace("", to)`: `to` at every character boundary. */
  function ReplaceEmpty(s: string, to: string): string
    decreases |s|
  {
    if s == [] then to else to + [s[0]] + ReplaceEmpty(s[1..], to)
  }

  /** Rust `str::replace`: every non-overlapping occurrence, leftmost first. */
  function Replace(s: string, from: string, to: string): string
    decreases |s|
  {
    if from == [] then ReplaceEmpty(s, to)
    else if |s| < |from| then s
    else if s[..|from|] == from then to + Replace(s[|from|..], from, to)
    else [s[0]] + Replace(s[1..], from, to)
  }

  /** Replacing a pattern that does not occur leaves the text as it is. */
  lemma {:induction false} ReplaceAbsent(s: string, from: string, to: string)
    requires from != [] && !Contains(s, from)
    ensures Replace(s, from, to) == s
    decreases |s|
  {
    if |s| >= |from| {
      assert !OccursAt(s, from, 0);
      assert s[0..|from|] == s[..|from|];
      ShiftOccurrence(s, from);
      ReplaceAbsent(s[1..], from, to);
      assert s == [s[0]] + s[1..];
    }
  }

  /** Rust `str::replace(chars, "")`: drop every character of the set. */
  function RemoveChars(s: string, chars: set<char>): (r: string)
    ensures forall c <- r :: c !in chars
    ensures forall c <- s :: c !in chars ==> c in r
    ensures |r| <= |s|
    ensures |s| == 1 ==> r == (if s[0] in chars then [] else s)
    decreases |s|
  {
    if s == [] then []
    else
      var rest := RemoveChars(s[1..], chars);
      assert forall c <- s :: c == s[0] || c in s[1..];
      (if s[0] in chars then [] else [s[0]]) + rest
  }

  /** Position of the first `c` in `s`, or `|s|` when there is none. */
  function IndexOf(s: string, c: char): (r: nat)
    ensures r <= |s|
    ensures r < |s| ==> s[r] == c
    ensures forall j :: 0 <= j < r ==> s[j] != c
    decreases |s|
  {
    if s == [] then 0
    else if s[0] == c then 0
    else 1 + IndexOf(s[1..], c)
  }

  lemma IndexOfSplit(a: string, c: char, b: string)
    requires c !in a
    ensures IndexOf(a + [c] + b, c) == |a|
  {
    var s := a + [c] + b;
    assert forall j :: 0 <= j < |a| ==> s[j] == a[j];
    assert s[|a|] == c;
  }

  /** Drop one carriage return that precedes a line feed. */
  function StripCr(line: string): string
  {
    if line != [] && line[|line| - 1] == '\r' then line[..|line| - 1] else line
  }

  /**
   * Rust `str::lines()`: split at each `\n`, dropping one `\r` right before
   * it; a final line ending adds no empty line, and "" has no lines.
   */
  function Lines(s: string): (r: seq<string>)
    ensures s == [] <==> r == []
    ensures forall i :: 0 <= i < |r| ==> '\n' !in r[i]
    decreases |s|
  {
    if s == [] then []
    else
      var i := IndexOf(s, '\n');
      if i == |s| then [s]
      else
        var rest := Lines(s[i + 1..]);
        assert forall k :: 0 <= k < |s[..i]| ==> s[..i][k] != '\n';
        assert '\n' !in s[..i];
        assert '\n' !in StripCr(s[..i]);
        [StripCr(s[..i])] + rest
  }

  /** Rust `[String]::join(sep)`. */
  function Join(xs: seq<string>, sep: string): string
  {
    if xs == [] then ""
    else if |xs| == 1 then xs[0]
    else xs[0] + sep + Join(xs[1..], sep)
  }

  /** Joining one more element appends the separator and the element. */
  lemma {:induction false} JoinSnoc(xs: seq<string>, x: string, sep: string)
    ensures Join(xs + [x], sep) == if xs == [] then x else Join(xs, sep) + sep + x
  {
    if |xs| > 1 {
      assert (xs + [x])[1..] == xs[1..] + [x];
      JoinSnoc(xs[1..], x, sep);
    } else if |xs| == 1 {
      assert (xs + [x])[1..] == [x];
    }
  }

  /**
   * Removal works character by character: the kept characters of a
   * concatenation are those of each part, in order.  With the one-character
   * case of `RemoveChars` this pins the result down.
   */
  lemma {:induction false} RemoveCharsConcat(a: string, b: string, chars: set<char>)
    ensures RemoveChars(a + b, chars) == RemoveChars(a, chars) + RemoveChars(b, chars)
    decreases |a|
  {
    if a != [] {
      assert (a + b)[0] == a[0];
      assert (a + b)[1..] == a[1..] + b;
      RemoveCharsConcat(a[1..], b, chars);
    } else {
      assert a + b == b;
    }
  }

  /** Removing characters that do not occur changes nothing. */
  lemma {:induction false} RemoveCharsAbsent(s: string, chars: set<char>)
    requires forall c <- s :: c !in chars
    ensures RemoveChars(s, chars) == s
    decreases |s|
  {
    if s != [] {
      RemoveCharsAbsent(s[1..], chars);
      assert s == [s[0]] + s[1..];
    }
  }

  /** Concatenation of all strings, in order. */
  function Concat(xs: seq<string>): string
  {
    if xs == [] then "" else xs[0] + Concat(xs[1..])
  }

  lemma ConcatAppend(xs: seq<string>, x: string)
    ensures Concat(xs + [x]) == Concat(xs) + x
  {
    if xs != [] {
      assert (xs + [x])[1..] == xs[1..] + [x];
      ConcatAppend(xs[1..], x);
    }
  }

  /** The pieces `piece` makes of each line, concatenated in order: a fold that pushes onto a string. */
  function FoldConcat(piece: string -> string, lines: seq<string>): string
  {
    if lines == [] then "" else FoldConcat(piece, lines[..|lines| - 1]) + piece(lines[|lines| - 1])
  }

  lemma {:induction false} FoldConcatAppend(piece: string -> string, a: seq<string>, b: seq<string>)
    ensures FoldConcat(piece, a + b) == FoldConcat(piece, a) + FoldConcat(piece, b)
    decreases |b|
  {
    if b == [] {
      assert a + b == a;
    } else {
      assert (a + b)[..|a + b| - 1] == a + b[..|b| - 1];
      FoldConcatAppend(piece, a, b[..|b| - 1]);
    }
  }

  /** A character no piece holds is absent from the fold. */
  lemma {:induction false} FoldConcatAvoids(piece: string -> string, lines: seq<string>, c: char)
    requires forall i :: 0 <= i < |lines| ==> c !in piece(lines[i])
    ensures c !in FoldConcat(piece, lines)
  {
    if lines != [] {
      FoldConcatAvoids(piece, lines[..|lines| - 1], c);
    }
  }

  /** A line as `lines()` can return it: no line feed, no trailing `\r`. */
  predicate IsPlainLine(x: string)
  {
    '\n' !in x && (x == [] || x[|x| - 1] != '\r')
  }

  /**
   * Splitting joined lines gives them back, as long as the last one is
   * not empty (a trailing empty line is swallowed by `lines()`).
   */
  lemma {:induction false} LinesOfJoin(xs: seq<string>)
    requires forall i :: 0 <= i < |xs| ==> IsPlainLine(xs[i])
    requires xs == [] || xs[|xs| - 1] != ""
    ensures Lines(Join(xs, "\n")) == xs
  {
    if |xs| == 1 {
      var s := xs[0];
      assert IndexOf(s, '\n') == |s|;
    } else if |xs| > 1 {
      var rest := Join(xs[1..], "\n");
      var s := xs[0] + "\n" + rest;
      IndexOfSplit(xs[0], '\n', rest);
      assert s[..|xs[0]|] == xs[0];
      assert s[|xs[0]| + 1..] == rest;
      LinesOfJoin(xs[1..]);
      assert rest != [];
    }
  }

  /** The text without one final line feed, if it ends in one. */
  function WithoutFinalNewline(s: string): (r: string)
    ensures StartsWith(s, r) && |s| - 1 <= |r|
  {
    if s != [] && s[|s| - 1] == '\n' then s[..|s| - 1] else s
  }

  /** No line feed in `s` is preceded by a carriage return. */
  predicate NoCrLf(s: string)
  {
    forall k :: 0 < k < |s| && s[k] == '\n' ==> s[k - 1] != '\r'
  }

  /**
   * Without `\r\n` pairs, the lines joined by line feeds are the text
   * itself, less one final line feed: `lines()` loses nothing else.
   */
  lemma {:induction false} JoinOfLines(s: string)
    requires NoCrLf(s)
    ensures Join(Lines(s), "\n") == WithoutFinalNewline(s)
    decreases |s|
  {
    if s != [] {
      var i := IndexOf(s, '\n');
      if i < |s| {
        NoCrLfSuffix(s, i + 1);
        JoinOfLines(s[i + 1..]);
        JoinOfLinesStep(s, i);
      }
    }
  }

  /** The step of `JoinOfLines`: the first line, a line feed, then the rest. */
  lemma {:induction false} JoinOfLinesStep(s: string, i: nat)
    requires NoCrLf(s) && i == IndexOf(s, '\n') && i < |s|
    requires Join(Lines(s[i + 1..]), "\n") == WithoutFinalNewline(s[i + 1..])
    ensures Join(Lines(s), "\n") == WithoutFinalNewline(s)
  {
    var t := s[i + 1..];
    LinesAtNewline(s, i);
    if t == [] {
      assert s == s[..i] + "\n";
    } else {
      JoinCons(s[..i], Lines(t), "\n");
      WithoutFinalNewlineCons(s[..i] + "\n", t);
      assert s == s[..i] + "\n" + t;
    }
  }

  lemma NoCrLfSuffix(s: string, j: nat)
    requires NoCrLf(s) && j <= |s|
    ensures NoCrLf(s[j..])
  {
    var t := s[j..];
    forall k | 0 < k < |t| && t[k] == '\n' ensures t[k - 1] != '\r' {
      assert t[k] == s[j + k] && t[k - 1] == s[j + k - 1];
    }
  }

  lemma JoinCons(x: string, xs: seq<string>, sep: string)
    requires xs != []
    ensures Join([x] + xs, sep) == x + sep + Join(xs, sep)
  {
    assert ([x] + xs)[1..] == xs;
  }

  lemma WithoutFinalNewlineCons(a: string, t: string)
    requires t != []
    ensures WithoutFinalNewline(a + t) == a + WithoutFinalNewline(t)
  {
    if t[|t| - 1] == '\n' {
      assert (a + t)[..|a + t| - 1] == a + t[..|t| - 1];
    }
  }

  /** When no `\r` precedes the first line feed, the first line ends right at it. */
  lemma {:induction false} LinesAtNewline(s: string, i: nat)
    requires i == IndexOf(s, '\n') && i < |s|
    requires i == 0 || s[i - 1] != '\r'
    ensures Lines(s) == [s[..i]] + Lines(s[i + 1..])
  {
    LinesUnfold(s, i);
    StripCrKeeps(s[..i]);
  }

  lemma LinesUnfold(s: string, i: nat)
    requires i == IndexOf(s, '\n') && i < |s|
    ensures Lines(s) == [StripCr(s[..i])] + Lines(s[i + 1..])
  {
  }

  lemma StripCrKeeps(line: string)
    requires line == [] || line[|line| - 1] != '\r'
    ensures StripCr(line) == line
  {
  }

  /** A line-free pattern cannot straddle a line feed. */
  lemma NoOccurrenceAcrossNewline(a: string, b: string, p: string)
    requires '\n' !in p && !Contains(a, p) && !Contains(b, p)
    ensures !Contains(a + "\n" + b, p)
  {
    var s := a + "\n" + b;
    forall j: nat ensures !OccursAt(s, p, j) {
      if j + |p| <= |a| {
        assert s[j..j + |p|] == a[j..j + |p|];
        assert !OccursAt(a, p, j);
      } else if j > |a| {
        if j + |p| <= |s| {
          assert s[j..j + |p|] == b[j - |a| - 1..j - |a| - 1 + |p|];
          assert !OccursAt(b, p, j - |a| - 1);
        }
      } else if j + |p| <= |s| {
        assert s[j..j + |p|][|a| - j] == '\n';
      }
    }
  }

  /** An occurrence of a line-free pattern in joined lines lies in one line. */
  lemma {:induction false} JoinLinesAvoid(xs: seq<string>, p: string)
    requires p != [] && '\n' !in p
    requires forall i :: 0 <= i < |xs| ==> !Contains(xs[i], p)
    ensures !Contains(Join(xs, "\n"), p)
  {
    if |xs| > 1 {
      JoinLinesAvoid(xs[1..], p);
      NoOccurrenceAcrossNewline(xs[0], Join(xs[1..], "\n"), p);
    }
  }

  /** Unicode White_Space, the set Rust's `str::trim` removes. */
  predicate IsWhitespace(c: char)
  {
    c == ' ' || ('\t' <= c <= '\r') || c == '\U{0085}' || c == '\U{00A0}' || c == '\U{1680}'
    || ('\U{2000}' <= c <= '\U{200A}') || c == '\U{2028}' || c == '\U{2029}'
    || c == '\U{202F}' || c == '\U{205F}' || c == '\U{3000}'
  }

  /** Every character of `x` is white space. */
  predicate AllWhitespace(x: string)
  {
    forall c <- x :: IsWhitespace(c)
  }

  function TrimStart(s: string): (r: string)
    ensures |r| <= |s| && r == s[|s| - |r|..]
    ensures r == [] || !IsWhitespace(r[0])
    ensures AllWhitespace(s[..|s| - |r|])
    decreases |s|
  {
    if s != [] && IsWhitespace(s[0]) then
      var r := TrimStart(s[1..]);
      assert s[..|s| - |r|] == [s[0]] + s[1..][..|s| - 1 - |r|];
      r
    else s
  }

  function TrimEnd(s: string): (r: string)
    ensures |r| <= |s| && r == s[..|r|]
    ensures r == [] || !IsWhitespace(r[|r| - 1])
    ensures AllWhitespace(s[|r|..])
    decreases |s|
  {
    if s != [] && IsWhitespace(s[|s| - 1]) then
      var r := TrimEnd(s[..|s| - 1]);
      assert s[|r|..] == s[..|s| - 1][|r|..] + [s[|s| - 1]];
      r
    else s
  }

  /**
   * Rust `str::trim`: `s` is the white space before the result, the result,
   * and the white space after it, and the result neither starts nor ends
   * with white space, which makes the split unique.
   */
  function Trim(s: string): (r: string)
    ensures r == [] || (!IsWhitespace(r[0]) && !IsWhitespace(r[|r| - 1]))
    ensures var i := |s| - |TrimStart(s)|;
      && i + |r| <= |s| && s == s[..i] + r + s[i + |r|..]
      && AllWhitespace(s[..i]) && AllWhitespace(s[i + |r|..])
  {
    TrimSlice(s);
    TrimEnd(TrimStart(s))
  }

  lemma {:induction false} TrimSlice(s: string)
    ensures var t := TrimStart(s); var r := TrimEnd(t); var i := |s| - |t|;
      && i + |r| <= |s| && s == s[..i] + r + s[i + |r|..]
      && AllWhitespace(s[..i]) && AllWhitespace(s[i + |r|..])
  {
    var t := TrimStart(s);
    var r := TrimEnd(t);
    SliceOfSuffix(s, |s| - |t|, |r|);
  }

  /** The slices of a suffix are slices of the whole, and the three parts make it up. */
  lemma SliceOfSuffix(s: string, i: nat, n: nat)
    requires i + n <= |s|
    ensures s[i..][..n] == s[i..i + n] && s[i..][n..] == s[i + n..]
    ensures s == s[..i] + s[i..i + n] + s[i + n..]
  {
  }

  /**
   * Rust `s.split(sep).last().unwrap()`: the text after the last separator
   * found by a left-to-right, non-overlapping scan.
   */
  function LastSegment(s: string, sep: string): (r: string)
    requires sep != []
    ensures !Contains(r, sep)
    ensures EndsWith(s, r)
    decreases |s|
  {
    match Find(s, sep)
    case None => s
    case Some(i) =>
      var r := LastSegment(s[i + |sep|..], sep);
      assert s[|s| - |r|..] == s[i + |sep|..][|s[i + |sep|..]| - |r|..];
      r
  }

  /** The kinds of Rust's `ParseIntError`. */
  datatype IntErrorKind = Empty | InvalidDigit | PosOverflow

  /** `usize` on the 64-bit targets the crate is built for. */
  const USIZE_MAX: nat := 0xFFFF_FFFF_FFFF_FFFF

  /** `ParseIntError`'s `Display` text. */
  function IntErrorMessage(e: IntErrorKind): string
  {
    match e
    case Empty => "cannot parse integer from empty string"
    case InvalidDigit => "invalid digit found in string"
    case PosOverflow => "number too large to fit in target type"
  }

  predicate IsDigit(c: char)
  {
    '0' <= c <= '9'
  }

  /** The digits, left to right, with Rust's per-digit overflow check. */
  function ParseDigits(ds: string, acc: nat): Result<nat, IntErrorKind>
    decreases |ds|
  {
    if ds == [] then Success(acc)
    else if !IsDigit(ds[0]) then Failure(InvalidDigit)
    else
      var v := acc * 10 + (ds[0] as int - '0' as int);
      if v > USIZE_MAX then Failure(PosOverflow) else ParseDigits(ds[1..], v)
  }

  /** Rust `str::parse::<usize>()`: an optional `+`, then decimal digits. */
  function ParseUsize(s: string): (r: Result<nat, IntErrorKind>)
    ensures r.Success? ==> r.value <= USIZE_MAX
    ensures s == [] ==> r == Failure(Empty)
  {
    if s == [] then Failure(Empty)
    else if |s| == 1 && (s[0] == '+' || s[0] == '-') then Failure(InvalidDigit)
    else
      ParseDigitsBounded(if s[0] == '+' then s[1..] else s, 0);
      ParseDigits(if s[0] == '+' then s[1..] else s, 0)
  }

  lemma {:induction false} ParseDigitsBounded(ds: string, acc: nat)
    requires acc <= USIZE_MAX
    ensures ParseDigits(ds, acc).Success? ==> ParseDigits(ds, acc).value <= USIZE_MAX
    decreases |ds|
  {
    if ds != [] && IsDigit(ds[0]) {
      var v := acc * 10 + (ds[0] as int - '0' as int);
      if v <= USIZE_MAX {
        ParseDigitsBounded(ds[1..], v);
      }
    }
  }

  function DigitChar(d: nat): char
    requires d < 10
  {
    "0123456789"[d]
  }

  /** Decimal rendering of a natural number (Python `str(n)`). */
  function NatToString(n: nat): (r: string)
    ensures r != [] && forall c <- r :: IsDigit(c)
    decreases n
  {
    if n < 10 then [DigitChar(n)] else NatToString(n / 10) + [DigitChar(n % 10)]
  }

  /** Parsing splits anywhere: the digits before the split are parsed first. */
  lemma {:induction false} ParseDigitsConcat(ds: string, rest: string, acc: nat)
    ensures ParseDigits(ds + rest, acc) ==
      match ParseDigits(ds, acc)
      case Success(v) => ParseDigits(rest, v)
      case Failure(e) => Failure(e)
    decreases |ds|
  {
    if ds == [] {
      assert ds + rest == rest;
    } else {
      assert (ds + rest)[0] == ds[0];
      assert (ds + rest)[1..] == ds[1..] + rest;
      if IsDigit(ds[0]) {
        var v := acc * 10 + (ds[0] as int - '0' as int);
        if v <= USIZE_MAX {
          ParseDigitsConcat(ds[1..], rest, v);
        }
      }
    }
  }

  /** The value of a run of decimal digits, most significant first. */
  function DigitsValue(ds: string): nat
    requires forall c <- ds :: IsDigit(c)
  {
    if ds == [] then 0
    else
      var d := ds[|ds| - 1];
      assert d in ds;
      assert IsDigit(d);
      DigitsValue(ds[..|ds| - 1]) * 10 + (d as int - '0' as int)
  }

  /** The digit loop computes the value, or overflows exactly when the value passes `usize::MAX`. */
  lemma {:induction false} ParseDigitsValue(ds: string)
    requires forall c <- ds :: IsDigit(c)
    ensures ParseDigits(ds, 0)
      == if DigitsValue(ds) <= USIZE_MAX then Success(DigitsValue(ds)) else Failure(PosOverflow)
    decreases |ds|
  {
    if ds != [] {
      var init := ds[..|ds| - 1];
      var d := ds[|ds| - 1];
      assert forall c <- init :: c in ds;
      ParseDigitsValue(init);
      assert init + [d] == ds;
      ParseDigitsConcat(init, [d], 0);
    }
  }

  /**
   * A run of decimal digits parses to its value, leading zeros included, or
   * is `PosOverflow` past `usize::MAX`; a leading `+` makes no difference.
   */
  lemma ParseUsizeDigits(ds: string)
    requires ds != [] && forall c <- ds :: IsDigit(c)
    ensures ParseUsize(ds)
      == if DigitsValue(ds) <= USIZE_MAX then Success(DigitsValue(ds)) else Failure(PosOverflow)
    ensures ParseUsize("+" + ds) == ParseUsize(ds)
  {
    ParseDigitsValue(ds);
    assert ("+" + ds)[1..] == ds;
  }

  /**
   * A character other than a digit, met before the digits overflow, is the
   * `InvalidDigit` error, with or without a leading `+`; so is a sign alone.
   */
  lemma ParseUsizeInvalid(p: string, c: char, q: string)
    requires forall x <- p :: IsDigit(x)
    requires !IsDigit(c) && (p == [] ==> c != '+')
    requires DigitsValue(p) <= USIZE_MAX
    ensures ParseUsize(p + [c] + q) == Failure(InvalidDigit)
    ensures ParseUsize("+" + p + [c] + q) == Failure(InvalidDigit)
    ensures ParseUsize("+") == Failure(InvalidDigit) && ParseUsize("-") == Failure(InvalidDigit)
  {
    var s := p + [c] + q;
    ParseDigitsValue(p);
    assert s == p + ([c] + q);
    ParseDigitsConcat(p, [c] + q, 0);
    assert ("+" + p + [c] + q)[1..] == s;
  }

  /** Parsing a rendered number gives the number back. */
  lemma {:induction false} ParseNatToString(n: nat)
    requires n <= USIZE_MAX
    ensures ParseUsize(NatToString(n)) == Success(n)
    decreases n
  {
    var s := NatToString(n);
    assert IsDigit(s[0]);
    ParseDigitsOfNat(n);
  }

  lemma {:induction false} ParseDigitsOfNat(n: nat)
    requires n <= USIZE_MAX
    ensures ParseDigits(NatToString(n), 0) == Success(n)
    decreases n
  {
    if n >= 10 {
      ParseDigitsOfNat(n / 10);
      ParseDigitsConcat(NatToString(n / 10), [DigitChar(n % 10)], 0);
    }
  }

  /** Rust's `Ord` for `str`: lexicographic by character. */
  predicate LexLe(a: string, b: string)
    decreases |a|
  {
    a == [] || (b != [] && (a[0] < b[0] || (a[0] == b[0] && LexLe(a[1..], b[1..]))))
  }

  lemma {:induction false} LexLeTotal(a: string, b: string)
    ensures LexLe(a, b) || LexLe(b, a)
    decreases |a|
  {
    if a != [] && b != [] && a[0] == b[0] {
      LexLeTotal(a[1..], b[1..]);
    }
  }

  lemma {:induction false} LexLeTransitive(a: string, b: string, c: string)
    requires LexLe(a, b) && LexLe(b, c)
    ensures LexLe(a, c)
    decreases |a|
  {
    if a != [] && a[0] == b[0] && b[0] == c[0] {
      LexLeTransitive(a[1..], b[1..], c[1..]);
    }
  }

  lemma {:induction false} LexLeAntisymmetric(a: string, b: string)
    requires LexLe(a, b) && LexLe(b, a)
    ensures a == b
    decreases |a|
  {
    if a != [] {
      LexLeAntisymmetric(a[1..], b[1..]);
      assert a == [a[0]] + a[1..] && b == [b[0]] + b[1..];
    }
  }
}
