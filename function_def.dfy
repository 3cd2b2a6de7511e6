/**
 * What the newer API renders for one registered function: its doc
 * comments through the comment pipeline and `fmt_sections`, and a
 * pseudo-Rust definition such as `fn add(a: int, b: int) -> int` with
 * the engine's type names made readable.
 */
module FunctionDef {
  import opened Wrappers
  import opened Text
  import opened Records
  import opened DocComments
  import opened ModuleOptions
  import opened ModuleSections

  // ---------------------------------------------------------------------------
  // Doc comments

  /**
   * `FunctionMetadata::fmt_doc_comments`: the comments with directive
   * lines, markers and hidden test lines removed, laid out by the section
   * format; nothing when the function has no doc comments.
   */
  function FunctionDocs(m: FunctionMetadata, format: SectionFormat, processor: MarkdownProcessor): (r: Option<string>)
    ensures r.None? <==> m.docComments.None?
  {
    match m.docComments
    case None => None
    case Some(dc) => Some(FormattedSections(format, m.name, processor, FormatComments(dc)))
  }

  /** In the Rust format the cleaned comments go into the `<details>` block whatever the processor. */
  lemma FunctionDocsRust(m: FunctionMetadata, processor: MarkdownProcessor)
    requires m.docComments.Some?
    ensures FunctionDocs(m, Rust, processor) == Some(RustDetails(FormatComments(m.docComments.value)))
  {
  }

  /** Plain comment lines reach the Rust `<details>` block as they were written. */
  lemma FunctionDocsOfPlainBody(m: FunctionMetadata, lines: seq<string>, processor: MarkdownProcessor)
    requires m.docComments == Some(WithNewlines(lines))
    requires PlainBody(lines)
    ensures FunctionDocs(m, Rust, processor) == Some(RustDetails(Join(lines, "\n")))
  {
    FunctionDocsRust(m, processor);
    FormatCommentsOfPlainBody(lines);
  }

  // ---------------------------------------------------------------------------
  // The definition's head

  const OPERATORS: seq<string> := ["==", "!=", ">", ">=", "<", "<=", "in"]

  /** `.into_iter().any(|op| op == name)`. */
  function AnyIs(ops: seq<string>, name: string): (r: bool)
    ensures r <==> name in ops
  {
    ops != [] && (ops[0] == name || AnyIs(ops[1..], name))
  }

  /** `is_operator`: the six comparisons and `in`. */
  function IsOperator(name: string): (r: bool)
    ensures r <==> (name == "==" || name == "!=" || name == ">" || name == ">="
                    || name == "<" || name == "<=" || name == "in")
    ensures r ==> 1 <= |name| <= 2
  {
    AnyIs(OPERATORS, name)
  }

  /** `op ` for an operator, `fn ` for anything else. */
  function KindPrefix(name: string): (r: string)
    ensures |r| == 3 && r[2] == ' '
    ensures r == "op " <==> IsOperator(name)
    ensures r == "fn " <==> !IsOperator(name)
  {
    if IsOperator(name) then "op " else "fn "
  }

  /** A getter `get$x` renders as `get x(`, a setter `set$x` as `set x(`, anything else as `name(`. */
  function CallPrefix(name: string): (r: string)
    ensures EndsWith(r, "(")
    ensures StartsWith(name, "get$") ==> r == "get " + name[4..] + "("
    ensures !StartsWith(name, "get$") && StartsWith(name, "set$") ==> r == "set " + name[4..] + "("
    ensures !StartsWith(name, "get$") && !StartsWith(name, "set$") ==> r == name + "("
  {
    match StripPrefix(name, "get$")
    case Some(rest) => "get " + rest + "("
    case None =>
      match StripPrefix(name, "set$")
      case Some(rest) => "set " + rest + "("
      case None => name + "("
  }

  // ---------------------------------------------------------------------------
  // Parameters

  const PARAMS_MISMATCH: string := "metadata.num_params does not match the number of parameters"

  /** The name of parameter `i`: its `name` entry, or `_`. */
  function ParamName(params: seq<map<string, string>>, i: nat): (r: string)
    ensures i < |params| && "name" in params[i] ==> r == params[i]["name"]
    ensures i >= |params| || "name" !in params[i] ==> r == "_"
  {
    if i < |params| && "name" in params[i] then params[i]["name"] else "_"
  }

  /** The type of parameter `i`: its `type` entry made readable, or `?`. */
  function ParamType(params: seq<map<string, string>>, i: nat, typeName: string -> string): (r: string)
    ensures i < |params| && "type" in params[i] ==> r == typeName(params[i]["type"])
    ensures i >= |params| || "type" !in params[i] ==> r == "?"
  {
    if i < |params| && "type" in params[i] then typeName(params[i]["type"]) else "?"
  }

  /** The rendered parameters: `name: type` for each of the first `n`, with `_: ?` past the given entries. */
  function ParamEntries(params: seq<map<string, string>>, n: nat, typeName: string -> string): (r: seq<string>)
    ensures |r| == n
    ensures forall i :: 0 <= i < n ==> r[i] == ParamName(params, i) + ": " + ParamType(params, i, typeName)
    ensures forall i :: |params| <= i < n ==> r[i] == "_: ?"
  {
    seq(n, i requires 0 <= i < n => ParamName(params, i) + ": " + ParamType(params, i, typeName))
  }

  /**
   * The parameter list between the parentheses: the `n` entries separated
   * by `, `, or the panic of `expect` when there are parameters but no
   * parameter metadata.
   */
  function ParamList(numParams: nat, params: Option<seq<map<string, string>>>, typeName: string -> string)
    : (r: Result<string, Fault>)
    ensures r.Failure? <==> numParams > 0 && params.None?
    ensures r.Failure? ==> r.error == Panic(PARAMS_MISMATCH)
    ensures numParams == 0 ==> r == Success("")
  {
    if numParams > 0 && params.None? then Failure(Panic(PARAMS_MISMATCH))
    else
      var ps := if params.Some? then params.value else [];
      Success(Join(ParamEntries(ps, numParams, typeName), ", "))
  }

  /** One more element of `xs` joined onto `start`: the separator (none before the first) and the element. */
  lemma JoinStep(start: string, xs: seq<string>, i: nat, sep: string)
    requires i < |xs|
    ensures start + Join(xs[..i], sep) + (if i == 0 then "" else sep) + xs[i] == start + Join(xs[..i + 1], sep)
  {
    var before := xs[..i];
    assert xs[..i + 1] == before + [xs[i]];
    JoinSnoc(before, xs[i], sep);
    if i == 0 {
      assert before == [];
      assert start + "" + "" + xs[i] == start + xs[i];
    } else {
      var j := Join(before, sep);
      assert start + j + sep + xs[i] == start + (j + sep + xs[i]);
    }
  }

  /**
   * The parameter loop: a `first` flag decides whether `, ` goes before
   * the entry; the text is appended to `start`.
   */
  method RenderParams(start: string, numParams: nat, params: Option<seq<map<string, string>>>, typeName: string -> string)
    returns (r: Result<string, Fault>)
    ensures r.Failure? <==> ParamList(numParams, params, typeName).Failure?
    ensures r.Failure? ==> r.error == ParamList(numParams, params, typeName).error
    ensures r.Success? ==> r.value == start + ParamList(numParams, params, typeName).value
  {
    ghost var entries := ParamEntries(if params.Some? then params.value else [], numParams, typeName);
    var definition := start;
    var first := true;
    for i := 0 to numParams
      invariant first <==> i == 0
      invariant i > 0 ==> params.Some?
      invariant definition == start + Join(entries[..i], ", ")
    {
      var separator := if first then "" else ", ";
      first := false;
      if params.None? {
        return Failure(Panic(PARAMS_MISMATCH));
      }
      var entry := ParamName(params.value, i) + ": " + ParamType(params.value, i, typeName);
      JoinStep(start, entries, i, ", ");
      definition := definition + separator + entry;
    }
    assert entries[..numParams] == entries;
    return Success(definition);
  }

  // ---------------------------------------------------------------------------
  // Return type and the whole definition

  /** `)` for no return type or `()`, otherwise `) -> ` and the readable type. */
  function ReturnSuffix(returnType: Option<string>, typeName: string -> string): (r: string)
    ensures returnType.None? || returnType == Some("()") ==> r == ")"
    ensures returnType.Some? && returnType != Some("()") ==> r == ") -> " + typeName(returnType.value)
  {
    match returnType
    case None => ")"
    case Some(t) => if t == "()" then ")" else ") -> " + typeName(t)
  }

  /** What `generate_function_definition` returns, or the panic it raises. */
  function Definition(m: FunctionMetadata, typeName: string -> string): (r: Result<string, Fault>)
    ensures r.Failure? <==> m.numParams > 0 && m.params.None?
  {
    match ParamList(m.numParams, m.params, typeName)
    case Failure(e) => Failure(e)
    case Success(ps) => Success(KindPrefix(m.name) + CallPrefix(m.name) + ps + ReturnSuffix(m.returnType, typeName))
  }

  /** The kind prefix, then the getter, setter or plain name and the opening parenthesis. */
  method DefinitionHead(name: string) returns (definition: string)
    ensures definition == KindPrefix(name) + CallPrefix(name)
  {
    definition := if IsOperator(name) then "op " else "fn ";
    ghost var kind := definition;
    match StripPrefix(name, "get$") {
      case Some(rest) =>
        definition := definition + ("get " + rest + "(");
      case None =>
        match StripPrefix(name, "set$") {
          case Some(rest) =>
            definition := definition + ("set " + rest + "(");
          case None =>
            definition := definition + (name + "(");
        }
    }
    assert definition == kind + CallPrefix(name);
  }

  /** `FunctionMetadata::generate_function_definition`, the type-name mapping given as `typeName`. */
  method GenerateFunctionDefinition(m: FunctionMetadata, typeName: string -> string) returns (r: Result<string, Fault>)
    ensures r == Definition(m, typeName)
  {
    var definition := DefinitionHead(m.name);
    var withParams := RenderParams(definition, m.numParams, m.params, typeName);
    match withParams {
      case Failure(e) =>
        return Failure(e);
      case Success(text) =>
        var suffix := match m.returnType
          case None => ")"
          case Some(t) => if t == "()" then ")" else ") -> " + typeName(t);
        return Success(text + suffix);
    }
  }

  /** A text starts with whatever is put in front of it. */
  lemma Prefixed(p: string, rest: string)
    ensures StartsWith(p + rest, p)
  {
    assert (p + rest)[..|p|] == p;
  }

  /** A text ends with whatever is put after it. */
  lemma Suffixed(rest: string, s: string)
    ensures EndsWith(rest + s, s)
  {
    assert (rest + s)[|rest|..] == s;
  }

  /** Where the four parts of a definition sit in it, whatever they hold. */
  lemma Layout(kind: string, call: string, ps: string, suffix: string)
    requires |kind| == 3
    ensures var d := kind + call + ps + suffix;
      && d[..3] == kind && StartsWith(d[3..], call) && EndsWith(d, suffix)
  {
    var d := kind + call + ps + suffix;
    assert d == kind + (call + (ps + suffix));
    Prefixed(kind, call + (ps + suffix));
    assert d[3..] == call + (ps + suffix);
    Prefixed(call, ps + suffix);
    Suffixed(kind + call + ps, suffix);
  }

  /** The definition opens with its kind and the call prefix, and closes with the return suffix. */
  lemma DefinitionLayout(m: FunctionMetadata, typeName: string -> string)
    requires Definition(m, typeName).Success?
    ensures var d := Definition(m, typeName).value;
      && (StartsWith(d, "op ") <==> IsOperator(m.name))
      && (StartsWith(d, "fn ") <==> !IsOperator(m.name))
      && StartsWith(d[3..], CallPrefix(m.name))
      && EndsWith(d, ReturnSuffix(m.returnType, typeName))
  {
    var kind := KindPrefix(m.name);
    Layout(kind, CallPrefix(m.name), ParamList(m.numParams, m.params, typeName).value, ReturnSuffix(m.returnType, typeName));
  }

  /** The call prefix of `get$x` is `get x(`, of `set$x` is `set x(`. */
  lemma AccessorCallPrefix(name: string, x: string)
    requires name == "get$" + x || name == "set$" + x
    ensures CallPrefix(name) == name[..3] + " " + x + "("
  {
    if name == "get$" + x {
      StripOwnPrefix("get$", x);
      assert name[..3] == "get";
    } else {
      StripOwnPrefix("set$", x);
      DiffersAt(name, "get$", 0);
      assert name[..3] == "set";
    }
  }

  /** Getters and setters are never operators: `get$x` renders as `fn get x(`, `set$x` as `fn set x(`. */
  lemma AccessorDefinition(m: FunctionMetadata, typeName: string -> string, x: string)
    requires Definition(m, typeName).Success?
    requires m.name == "get$" + x || m.name == "set$" + x
    ensures StartsWith(Definition(m, typeName).value, "fn " + m.name[..3] + " " + x + "(")
  {
    var d := Definition(m, typeName).value;
    assert !IsOperator(m.name);
    var call := CallPrefix(m.name);
    AccessorCallPrefix(m.name, x);
    var ps := ParamList(m.numParams, m.params, typeName).value;
    var suffix := ReturnSuffix(m.returnType, typeName);
    assert d == "fn " + call + ps + suffix;
    assert d == ("fn " + call) + (ps + suffix);
    Prefixed("fn " + call, ps + suffix);
    assert "fn " + call == "fn " + m.name[..3] + " " + x + "(";
  }

  /** The parameters `a: INT, b: INT` render as `a: int, b: int`. */
  lemma AddParams(typeName: string -> string)
    requires typeName("INT") == "int"
    ensures ParamList(2, Some([map["name" := "a", "type" := "INT"], map["name" := "b", "type" := "INT"]]), typeName)
         == Success("a: int, b: int")
  {
    var ps := [map["name" := "a", "type" := "INT"], map["name" := "b", "type" := "INT"]];
    var entries := ParamEntries(ps, 2, typeName);
    assert ParamName(ps, 0) == "a" && ParamType(ps, 0, typeName) == "int";
    assert ParamName(ps, 1) == "b" && ParamType(ps, 1, typeName) == "int";
    assert entries[0] == "a" + ": " + "int" == "a: int";
    assert entries[1] == "b" + ": " + "int" == "b: int";
    assert entries == ["a: int", "b: int"];
    assert Join(entries, ", ") == "a: int, b: int";
  }

  /** A second parameter past the metadata, and a first without a type, render as `_: ?` and `s: ?`. */
  lemma MissingParams(typeName: string -> string)
    ensures ParamList(2, Some([map["name" := "s"]]), typeName) == Success("s: ?, _: ?")
  {
    var ps := [map["name" := "s"]];
    var entries := ParamEntries(ps, 2, typeName);
    assert ParamName(ps, 0) == "s" && ParamType(ps, 0, typeName) == "?";
    assert entries[0] == "s" + ": " + "?" == "s: ?";
    assert entries == ["s: ?", "_: ?"];
    assert Join(entries, ", ") == "s: ?, _: ?";
  }

  // ---------------------------------------------------------------------------
  // Readable type names

  /** Prefers the first value that is present, as `Option::or_else`. */
  function OrElse(a: Option<string>, b: Option<string>): (r: Option<string>)
    ensures r.Some? <==> a.Some? || b.Some?
    ensures a.Some? ==> r == a
  {
    if a.Some? then a else b
  }

  /**
   * The endings `remove_result` tries after `Result<`, in order: the boxed
   * engine error in four spellings, then a bare `>`.
   */
  const RESULT_ENDINGS: seq<string> :=
    [BOXED_SPELLINGS[0] + BOXED_ERROR, BOXED_SPELLINGS[1] + BOXED_ERROR,
     BOXED_SPELLINGS[2] + BOXED_ERROR, BOXED_SPELLINGS[3] + BOXED_ERROR, ">"]

  /** The four spellings of the boxed error differ only in what comes before `EvalAltResult>>`. */
  const BOXED_SPELLINGS: seq<string> := [",Box<", ",Box<rhai::", ", Box<", ", Box<rhai::"]

  const BOXED_ERROR: string := "EvalAltResult>>"

  /** `t` with the first of `endings` it ends with stripped off, as a chain of `strip_suffix(..).or_else(..)`. */
  function StripFirstSuffix(t: string, endings: seq<string>): (r: Option<string>)
    ensures r.Some? ==> |r.value| <= |t|
  {
    if endings == [] then None else OrElse(StripSuffix(t, endings[0]), StripFirstSuffix(t, endings[1..]))
  }

  /** The chain strips the first ending that matches. */
  lemma {:induction false} StripFirstSuffixAt(t: string, endings: seq<string>, k: nat)
    requires k < |endings| && EndsWith(t, endings[k])
    requires forall j :: 0 <= j < k ==> !EndsWith(t, endings[j])
    ensures StripFirstSuffix(t, endings) == Some(t[..|t| - |endings[k]|])
  {
    if k > 0 {
      StripFirstSuffixAt(t, endings[1..], k - 1);
    }
  }

  /** The chain gives nothing when no ending matches. */
  lemma {:induction false} StripFirstSuffixNone(t: string, endings: seq<string>)
    requires forall j :: 0 <= j < |endings| ==> !EndsWith(t, endings[j])
    ensures StripFirstSuffix(t, endings) == None
  {
    if endings != [] {
      StripFirstSuffixNone(t, endings[1..]);
    }
  }

  /**
   * `remove_result`: the payload of `Result<T, Box<EvalAltResult>>` in its
   * four spellings, of `Result<T>`, `EngineResult<T>` and
   * `(rhai::)RhaiResultOf<T>`, trimmed; anything else unchanged.
   */
  function RemoveResult(ty: string): (r: string)
    ensures (!StartsWith(ty, "Result<") && !StartsWith(ty, "EngineResult<")
             && !StartsWith(ty, "RhaiResultOf<") && !StartsWith(ty, "rhai::RhaiResultOf<")) ==> r == ty
    ensures |r| <= |ty|
  {
    var stripped :=
      match StripPrefix(ty, "Result<")
      case Some(t) => StripFirstSuffix(t, RESULT_ENDINGS)
      case None => AliasPayload(ty);
    match stripped
    case Some(t) => Trim(t)
    case None => ty
  }

  /** The payload of `EngineResult<T>` or `(rhai::)RhaiResultOf<T>`, if `ty` is one. */
  function AliasPayload(ty: string): (r: Option<string>)
    ensures r.Some? ==> |r.value| < |ty|
    ensures (!StartsWith(ty, "EngineResult<") && !StartsWith(ty, "RhaiResultOf<")
             && !StartsWith(ty, "rhai::RhaiResultOf<")) ==> r.None?
  {
    match StripPrefix(ty, "EngineResult<")
    case Some(t) => StripSuffix(t, ">")
    case None =>
      match OrElse(StripPrefix(ty, "RhaiResultOf<"), StripPrefix(ty, "rhai::RhaiResultOf<"))
      case Some(t) => StripSuffix(t, ">")
      case None => None
  }

  /** A text that does not end in `>` has no tail that does. */
  lemma OpenEnded(ty: string, n: nat, b: string)
    requires n <= |ty| && !EndsWith(ty, ">") && b != [] && b[|b| - 1] == '>'
    ensures !EndsWith(ty[n..], b)
  {
  }

  /** Every wrapper `remove_result` strips ends in `>`, so a type that does not is left alone. */
  lemma RemoveResultKeepsOpen(ty: string)
    requires !EndsWith(ty, ">")
    ensures RemoveResult(ty) == ty
  {
    if StartsWith(ty, "Result<") {
      forall j | 0 <= j < |RESULT_ENDINGS| ensures !EndsWith(ty[7..], RESULT_ENDINGS[j]) {
        OpenEnded(ty, 7, RESULT_ENDINGS[j]);
      }
      StripFirstSuffixNone(ty[7..], RESULT_ENDINGS);
    } else if StartsWith(ty, "EngineResult<") {
      OpenEnded(ty, 13, ">");
    } else if StartsWith(ty, "RhaiResultOf<") {
      OpenEnded(ty, 13, ">");
    } else if StartsWith(ty, "rhai::RhaiResultOf<") {
      OpenEnded(ty, 19, ">");
    }
  }

  /** No suffix of `s` of `p`'s length can equal `p` when one character differs. */
  lemma MismatchAt(s: string, p: string, k: nat)
    requires k < |p| && (|p| <= |s| ==> s[|s| - |p| + k] != p[k])
    ensures !EndsWith(s, p)
  {
  }

  /**
   * `t + (pb + common)` cannot end in `pa + common` when `pa` and `pb`
   * differ `n` characters from their ends.
   */
  lemma SpellingsDiffer(t: string, pa: string, pb: string, common: string, n: nat)
    requires 1 <= n <= |pa| && n <= |pb| && pa[|pa| - n] != pb[|pb| - n]
    ensures !EndsWith(t + (pb + common), pa + common)
  {
    var s := t + (pb + common);
    assert s[|s| - |common| - n] == pb[|pb| - n];
    assert (pa + common)[|pa| - n] == pa[|pa| - n];
    MismatchAt(s, pa + common, |pa| - n);
  }

  /** A text ending in the `k`-th boxed spelling ends in none of the spellings tried before it. */
  lemma EarlierEndingsMiss(t: string, k: nat)
    requires k < 4
    ensures forall j :: 0 <= j < k ==> !EndsWith(t + RESULT_ENDINGS[k], RESULT_ENDINGS[j])
  {
    var b := BOXED_SPELLINGS;
    if k == 1 {
      SpellingsDiffer(t, b[0], b[1], BOXED_ERROR, 5);
    } else if k == 2 {
      SpellingsDiffer(t, b[0], b[2], BOXED_ERROR, 5);
      SpellingsDiffer(t, b[1], b[2], BOXED_ERROR, 6);
    } else if k == 3 {
      SpellingsDiffer(t, b[0], b[3], BOXED_ERROR, 5);
      SpellingsDiffer(t, b[1], b[3], BOXED_ERROR, 11);
      SpellingsDiffer(t, b[2], b[3], BOXED_ERROR, 6);
    }
  }

  /** `remove_result` unwraps `Result<T, Box<EvalAltResult>>` in each of its four spellings. */
  lemma RemoveResultBoxed(t: string, k: nat)
    requires k < 4
    ensures RemoveResult("Result<" + t + RESULT_ENDINGS[k]) == Trim(t)
  {
    var inner := t + RESULT_ENDINGS[k];
    var ty := "Result<" + inner;
    assert "Result<" + t + RESULT_ENDINGS[k] == ty;
    assert StripPrefix(ty, "Result<") == Some(inner) by {
      assert ty[..7] == "Result<" && ty[7..] == inner;
    }
    EarlierEndingsMiss(t, k);
    StripFirstSuffixAt(inner, RESULT_ENDINGS, k);
    assert inner[..|inner| - |RESULT_ENDINGS[k]|] == t;
  }

  /** A suffix of a suffix is a suffix. */
  lemma SuffixOfSuffix(s: string, p: string, q: string)
    requires EndsWith(s, p) && EndsWith(p, q)
    ensures EndsWith(s, q)
  {
    assert s[|s| - |q|..] == s[|s| - |p|..][|p| - |q|..];
  }

  /** Dropping the same last character from a text and its suffix leaves a suffix. */
  lemma EndsWithInit(t: string, p: string, c: char)
    requires EndsWith(t + [c], p + [c])
    ensures EndsWith(t, p)
  {
    assert t[|t| - |p|..] == (t + [c])[|t| + 1 - |p + [c]|..][..|p|];
  }

  /** A boxed-error ending can close `t>` only when `t` ends in `EvalAltResult>`. */
  lemma BoxedEndingNeedsError(t: string, box: string)
    requires EndsWith(box, BOXED_ERROR)
    ensures EndsWith(t + ">", box) ==> EndsWith(t, "EvalAltResult>")
  {
    if EndsWith(t + ">", box) {
      SuffixOfSuffix(t + ">", box, BOXED_ERROR);
      assert BOXED_ERROR == "EvalAltResult>" + ">";
      EndsWithInit(t, "EvalAltResult>", '>');
    }
  }

  /** The four boxed spellings all end in `EvalAltResult>>`. */
  lemma BoxedEndingsEndInError()
    ensures forall j :: 0 <= j < 4 ==> EndsWith(RESULT_ENDINGS[j], BOXED_ERROR)
  {
    forall j | 0 <= j < 4 ensures EndsWith(RESULT_ENDINGS[j], BOXED_ERROR) {
      Suffixed(BOXED_SPELLINGS[j], BOXED_ERROR);
    }
  }

  /** `Result<T>` with any other error type closing on `>` is unwrapped too. */
  lemma RemoveResultPlain(t: string)
    requires !EndsWith(t, "EvalAltResult>")
    ensures RemoveResult("Result<" + t + ">") == Trim(t)
  {
    var inner := t + ">";
    var ty := "Result<" + inner;
    assert "Result<" + t + ">" == ty;
    assert StripPrefix(ty, "Result<") == Some(inner) by {
      assert ty[..7] == "Result<" && ty[7..] == inner;
    }
    BoxedEndingsEndInError();
    BoxedEndingNeedsError(t, RESULT_ENDINGS[0]);
    BoxedEndingNeedsError(t, RESULT_ENDINGS[1]);
    BoxedEndingNeedsError(t, RESULT_ENDINGS[2]);
    BoxedEndingNeedsError(t, RESULT_ENDINGS[3]);
    assert RESULT_ENDINGS[4] == ">";
    StripFirstSuffixAt(inner, RESULT_ENDINGS, 4);
    assert inner[..|inner| - 1] == t;
  }

  /** Stripping the prefix a text was built with gives back the rest. */
  lemma StripOwnPrefix(p: string, rest: string)
    ensures StripPrefix(p + rest, p) == Some(rest)
  {
    Prefixed(p, rest);
    assert (p + rest)[|p|..] == rest;
  }

  /** Stripping the suffix a text was built with gives back the rest. */
  lemma StripOwnSuffix(rest: string, p: string)
    ensures StripSuffix(rest + p, p) == Some(rest)
  {
    Suffixed(rest, p);
    assert (rest + p)[..|rest|] == rest;
  }

  /** A text that differs from `p` at position `k` does not start with `p`. */
  lemma DiffersAt(s: string, p: string, k: nat)
    requires k < |p| && k < |s| && s[k] != p[k]
    ensures StripPrefix(s, p) == None
  {
    assert |p| <= |s| ==> s[..|p|][k] == s[k];
  }

  /** `EngineResult<T>`, `RhaiResultOf<T>` and `rhai::RhaiResultOf<T>` are unwrapped. */
  lemma RemoveResultAliases(t: string, wrapper: string)
    requires wrapper == "EngineResult<" || wrapper == "RhaiResultOf<" || wrapper == "rhai::RhaiResultOf<"
    ensures RemoveResult(wrapper + t + ">") == Trim(t)
  {
    var ty := wrapper + (t + ">");
    assert wrapper + t + ">" == ty;
    assert ty[0] == wrapper[0] && ty[1] == wrapper[1];
    StripOwnPrefix(wrapper, t + ">");
    StripOwnSuffix(t, ">");
    if wrapper == "EngineResult<" {
      DiffersAt(ty, "Result<", 0);
      assert AliasPayload(ty) == Some(t);
    } else if wrapper == "RhaiResultOf<" {
      DiffersAt(ty, "Result<", 1);
      DiffersAt(ty, "EngineResult<", 0);
      assert AliasPayload(ty) == Some(t);
    } else {
      DiffersAt(ty, "Result<", 0);
      DiffersAt(ty, "EngineResult<", 0);
      DiffersAt(ty, "RhaiResultOf<", 0);
      assert AliasPayload(ty) == Some(t);
    }
  }

  /**
   * What `std::any::type_name` gives for the engine's integer, float,
   * array, blob, map, instant and `FnPtr` types; they depend on
   * how the engine was built, so the model takes them as given.
   */
  datatype EngineTypeNames = EngineTypeNames(
    intType: string, floatType: string, arrayType: string, blobType: string,
    mapType: string, instantType: string, fnPtrType: string)

  /** The replacements `def_type_name` applies, in order: what is replaced, and by what. */
  function Substitutions(names: EngineTypeNames): (r: seq<(string, string)>)
    ensures |r| == 13
    ensures forall k :: 0 <= k < |r| ==> r[k].1 != [] && ':' !in r[k].1
  {
    [("Iterator<Item=", "Iterator<"), ("Dynamic", "?"), ("INT", "int"), (names.intType, "int"),
     ("FLOAT", "float"), ("&str", "String"), ("ImmutableString", "String"),
     (names.floatType, "float"), (names.arrayType, "Array"), (names.blobType, "Blob"),
     (names.mapType, "Map"), (names.instantType, "Instant"), (names.fnPtrType, "FnPtr")]
  }

  /** Each replacement of `subs` applied to the whole text in turn. */
  function ReplaceAll(s: string, subs: seq<(string, string)>): string
    decreases |subs|
  {
    if subs == [] then s else ReplaceAll(Replace(s, subs[0].0, subs[0].1), subs[1..])
  }

  /**
   * `def_type_name`: a leading `&mut` dropped and the rest trimmed, result
   * wrappers removed, only the text after the last `::` kept, then the
   * engine's names replaced by readable ones.
   */
  function DefTypeName(ty: string, names: EngineTypeNames): string
  {
    var unref := Trim(match StripPrefix(ty, "&mut") case Some(rest) => rest case None => ty);
    var last := LastSegment(RemoveResult(unref), "::");
    ReplaceAll(last, Substitutions(names))
  }

  /** The type mapping `generate_function_definition` uses. */
  function TypeNamer(names: EngineTypeNames): string -> string
  {
    (ty: string) => DefTypeName(ty, names)
  }

  /** `&mut` makes no difference to the rendered type. */
  lemma DefTypeNameDropsMut(t: string, names: EngineTypeNames)
    requires !StartsWith(t, "&mut")
    ensures DefTypeName("&mut" + t, names) == DefTypeName(t, names)
  {
    assert ("&mut" + t)[..4] == "&mut" && ("&mut" + t)[4..] == t;
  }

  /** Replacing patterns that do not occur changes nothing. */
  lemma {:induction false} ReplaceAllAbsent(s: string, subs: seq<(string, string)>)
    requires forall k :: 0 <= k < |subs| ==> subs[k].0 != [] && !Contains(s, subs[k].0)
    ensures ReplaceAll(s, subs) == s
    decreases |subs|
  {
    if subs != [] {
      ReplaceAbsent(s, subs[0].0, subs[0].1);
      ReplaceAllAbsent(s, subs[1..]);
    }
  }

  /**
   * A trimmed name without `&mut`, wrapper, path or any of the replaced
   * names is rendered as it is.
   */
  lemma DefTypeNameKeepsPlain(t: string, names: EngineTypeNames)
    requires Trim(t) == t && !StartsWith(t, "&mut") && !EndsWith(t, ">") && !Contains(t, "::")
    requires forall k :: 0 <= k < 13 ==>
      Substitutions(names)[k].0 != [] && !Contains(t, Substitutions(names)[k].0)
    ensures DefTypeName(t, names) == t
  {
    RemoveResultKeepsOpen(t);
    assert LastSegment(t, "::") == t;
    ReplaceAllAbsent(t, Substitutions(names));
  }

  /** No two adjacent colons: no `::` path separator left. */
  predicate NoPath(s: string)
  {
    forall i :: 0 <= i < |s| - 1 ==> !(s[i] == ':' && s[i + 1] == ':')
  }

  lemma NoPathIsNotContains(s: string)
    ensures NoPath(s) <==> !Contains(s, "::")
  {
    if Contains(s, "::") {
      var i := Find(s, "::").value;
      assert s[i..i + 2] == "::";
      assert s[i] == ':' && s[i + 1] == ':';
    }
    if !NoPath(s) {
      var i :| 0 <= i < |s| - 1 && s[i] == ':' && s[i + 1] == ':';
      assert s[i..i + 2] == "::";
      ContainsAt(s, "::", i);
    }
  }

  /** Two texts without `::` join without one unless the seam makes it. */
  lemma NoPathConcat(a: string, b: string)
    requires NoPath(a) && NoPath(b)
    requires a == [] || b == [] || a[|a| - 1] != ':' || b[0] != ':'
    ensures NoPath(a + b)
  {
    var s := a + b;
    forall i | 0 <= i < |s| - 1 ensures !(s[i] == ':' && s[i + 1] == ':') {
      if i + 1 < |a| {
        assert s[i] == a[i] && s[i + 1] == a[i + 1];
      } else if i >= |a| {
        assert s[i] == b[i - |a|] && s[i + 1] == b[i - |a| + 1];
      }
    }
  }

  /** Inserting a colon-free replacement at every boundary makes no `::`. */
  lemma {:induction false} ReplaceEmptyNoPath(s: string, to: string)
    requires to != [] && ':' !in to
    ensures NoPath(ReplaceEmpty(s, to)) && ReplaceEmpty(s, to) != [] && ReplaceEmpty(s, to)[0] == to[0]
    decreases |s|
  {
    if s != [] {
      var rest := ReplaceEmpty(s[1..], to);
      ReplaceEmptyNoPath(s[1..], to);
      NoPathConcat(to, [s[0]]);
      NoPathConcat(to + [s[0]], rest);
      assert ReplaceEmpty(s, to) == to + [s[0]] + rest;
    }
  }

  /**
   * Replacing a pattern by a non-empty colon-free text creates no `::`,
   * and the result starts with a colon only where the input did.
   */
  lemma {:induction false} ReplaceNoPath(s: string, from: string, to: string)
    requires NoPath(s) && to != [] && ':' !in to
    ensures NoPath(Replace(s, from, to))
    ensures Replace(s, from, to) != [] && Replace(s, from, to)[0] == ':' ==> s != [] && s[0] == ':'
    decreases |s|
  {
    if from == [] {
      ReplaceEmptyNoPath(s, to);
    } else if |s| < |from| {
    } else if s[..|from|] == from {
      var tail := s[|from|..];
      assert NoPath(tail) by {
        forall i | 0 <= i < |tail| - 1 ensures !(tail[i] == ':' && tail[i + 1] == ':') {
          assert tail[i] == s[i + |from|] && tail[i + 1] == s[i + |from| + 1];
        }
      }
      ReplaceNoPath(tail, from, to);
      NoPathConcat(to, Replace(tail, from, to));
    } else {
      var tail := s[1..];
      assert NoPath(tail) by {
        forall i | 0 <= i < |tail| - 1 ensures !(tail[i] == ':' && tail[i + 1] == ':') {
          assert tail[i] == s[i + 1] && tail[i + 1] == s[i + 2];
        }
      }
      ReplaceNoPath(tail, from, to);
      NoPathConcat([s[0]], Replace(tail, from, to));
    }
  }

  lemma {:induction false} ReplaceAllNoPath(s: string, subs: seq<(string, string)>)
    requires NoPath(s)
    requires forall k :: 0 <= k < |subs| ==> subs[k].1 != [] && ':' !in subs[k].1
    ensures NoPath(ReplaceAll(s, subs))
    decreases |subs|
  {
    if subs != [] {
      ReplaceNoPath(s, subs[0].0, subs[0].1);
      ReplaceAllNoPath(Replace(s, subs[0].0, subs[0].1), subs[1..]);
    }
  }

  /** The rendered type never holds a `::` path, whatever the engine's names. */
  lemma DefTypeNameHasNoPath(ty: string, names: EngineTypeNames)
    ensures !Contains(DefTypeName(ty, names), "::")
  {
    var unref := Trim(match StripPrefix(ty, "&mut") case Some(rest) => rest case None => ty);
    var last := LastSegment(RemoveResult(unref), "::");
    NoPathIsNotContains(last);
    ReplaceAllNoPath(last, Substitutions(names));
    NoPathIsNotContains(DefTypeName(ty, names));
  }

  // ---------------------------------------------------------------------------
  // The replacements at work

  /** The engine's type names, in the order `Substitutions` meets them. */
  function EngineNames(names: EngineTypeNames): (r: seq<string>)
    ensures |r| == 7
  {
    [names.intType, names.floatType, names.arrayType, names.blobType,
     names.mapType, names.instantType, names.fnPtrType]
  }

  /** No engine type name is empty or occurs in `s`. */
  predicate NamesAbsent(names: EngineTypeNames, s: string)
  {
    forall n <- EngineNames(names) :: n != [] && !Contains(s, n)
  }

  /** A pattern longer than the text cannot occur in it. */
  lemma Longer(s: string, p: string)
    requires |s| < |p|
    ensures !Contains(s, p)
  {
  }

  /** A pattern holding a character the text lacks cannot occur in it. */
  lemma LacksChar(s: string, p: string, k: nat)
    requires k < |p| && p[k] !in s
    ensures !Contains(s, p)
  {
  }

  /** Replacing the whole text gives the replacement. */
  lemma ReplaceWhole(s: string, to: string)
    requires s != []
    ensures Replace(s, s, to) == to
  {
    assert s[..|s|] == s;
    assert Replace(s[|s|..], s, to) == [];
  }

  /**
   * When the `k`-th pattern is the whole text, no earlier pattern occurs in
   * it and no later one occurs in its replacement, the replacements give
   * exactly the `k`-th replacement.
   */
  lemma {:induction false} ReplaceAllWhole(s: string, subs: seq<(string, string)>, k: nat)
    requires k < |subs| && subs[k].0 == s && s != []
    requires forall j :: 0 <= j < k ==> subs[j].0 != [] && !Contains(s, subs[j].0)
    requires forall j :: k < j < |subs| ==> subs[j].0 != [] && !Contains(subs[k].1, subs[j].0)
    ensures ReplaceAll(s, subs) == subs[k].1
    decreases k
  {
    if k == 0 {
      ReplaceWhole(s, subs[0].1);
      ReplaceAllAbsent(subs[0].1, subs[1..]);
    } else {
      ReplaceAbsent(s, subs[0].0, subs[0].1);
      ReplaceAllWhole(s, subs[1..], k - 1);
    }
  }

  /** A text that neither starts nor ends with white space is its own trim. */
  lemma TrimPlain(t: string)
    requires t != [] && !IsWhitespace(t[0]) && !IsWhitespace(t[|t| - 1])
    ensures Trim(t) == t
  {
    assert TrimStart(t) == t;
    assert TrimEnd(t) == t;
  }

  /**
   * A name without white space at its ends, `&mut`, path or wrapper only
   * goes through the replacements.
   */
  lemma DefTypeNameOfWord(t: string, names: EngineTypeNames)
    requires t != [] && !IsWhitespace(t[0]) && !IsWhitespace(t[|t| - 1])
    requires t[0] != '&' || (|t| > 1 && t[1] != 'm')
    requires t[|t| - 1] != '>' && ':' !in t
    ensures DefTypeName(t, names) == ReplaceAll(t, Substitutions(names))
  {
    assert !EndsWith(t, ">") by {
      assert |t| >= 1 ==> t[|t| - 1..][0] == t[|t| - 1];
    }
    RemoveResultKeepsOpen(t);
    DefTypeNameOfUnwrapped(t, t, names);
  }

  /**
   * A type without white space at its ends or `&mut` whose wrapper unwraps
   * to a name without path only has that name go through the replacements.
   */
  lemma DefTypeNameOfUnwrapped(ty: string, inner: string, names: EngineTypeNames)
    requires ty != [] && !IsWhitespace(ty[0]) && !IsWhitespace(ty[|ty| - 1])
    requires ty[0] != '&' || (|ty| > 1 && ty[1] != 'm')
    requires RemoveResult(ty) == inner && ':' !in inner
    ensures DefTypeName(ty, names) == ReplaceAll(inner, Substitutions(names))
  {
    TrimPlain(ty);
    if ty[0] != '&' {
      DiffersAt(ty, "&mut", 0);
    } else {
      DiffersAt(ty, "&mut", 1);
    }
    LacksChar(inner, "::", 0);
    assert LastSegment(inner, "::") == inner;
  }

  /** `INT` becomes `int`. */
  lemma ReplaceInt(names: EngineTypeNames)
    requires NamesAbsent(names, "INT") && NamesAbsent(names, "int")
    ensures ReplaceAll("INT", Substitutions(names)) == "int"
  {
    var subs := Substitutions(names);
    Longer("INT", subs[0].0);
    Longer("INT", subs[1].0);
    forall j | 2 < j < 13 ensures subs[j].0 != [] && !Contains("int", subs[j].0) {
      if 4 <= j <= 6 {
        Longer("int", subs[j].0);
      } else {
        assert subs[j].0 in EngineNames(names);
      }
    }
    ReplaceAllWhole("INT", subs, 2);
  }

  /** `def_type_name("INT")` is `int`, whatever the engine calls its integer type. */
  lemma DefTypeNameInt(names: EngineTypeNames)
    requires NamesAbsent(names, "INT") && NamesAbsent(names, "int")
    ensures DefTypeName("INT", names) == "int"
  {
    DefTypeNameOfWord("INT", names);
    ReplaceInt(names);
  }

  /** `Dynamic` becomes `?`. */
  lemma ReplaceDynamic(names: EngineTypeNames)
    requires NamesAbsent(names, "?")
    ensures ReplaceAll("Dynamic", Substitutions(names)) == "?"
  {
    var subs := Substitutions(names);
    Longer("Dynamic", subs[0].0);
    forall j | 1 < j < 13 ensures subs[j].0 != [] && !Contains("?", subs[j].0) {
      if j == 2 || 4 <= j <= 6 {
        Longer("?", subs[j].0);
      } else {
        assert subs[j].0 in EngineNames(names);
      }
    }
    ReplaceAllWhole("Dynamic", subs, 1);
  }

  /** `def_type_name("Dynamic")` is `?`. */
  lemma DefTypeNameDynamic(names: EngineTypeNames)
    requires NamesAbsent(names, "?")
    ensures DefTypeName("Dynamic", names) == "?"
  {
    DefTypeNameOfWord("Dynamic", names);
    ReplaceDynamic(names);
  }

  /** `&str` becomes `String`. */
  lemma ReplaceStr(names: EngineTypeNames)
    requires NamesAbsent(names, "&str") && NamesAbsent(names, "String")
    ensures ReplaceAll("&str", Substitutions(names)) == "String"
  {
    var subs := Substitutions(names);
    forall j | 0 <= j < 5 ensures subs[j].0 != [] && !Contains("&str", subs[j].0) {
      if j == 2 {
        LacksChar("&str", subs[j].0, 0);
      } else if j == 3 {
        assert subs[j].0 in EngineNames(names);
      } else {
        Longer("&str", subs[j].0);
      }
    }
    forall j | 5 < j < 13 ensures subs[j].0 != [] && !Contains("String", subs[j].0) {
      if j == 6 {
        Longer("String", subs[j].0);
      } else {
        assert subs[j].0 in EngineNames(names);
      }
    }
    ReplaceAllWhole("&str", subs, 5);
  }

  /** `def_type_name("&str")` is `String`. */
  lemma DefTypeNameStr(names: EngineTypeNames)
    requires NamesAbsent(names, "&str") && NamesAbsent(names, "String")
    ensures DefTypeName("&str", names) == "String"
  {
    DefTypeNameOfWord("&str", names);
    ReplaceStr(names);
  }

  /** `ImmutableString` becomes `String`. */
  lemma ReplaceImmutableString(names: EngineTypeNames)
    requires NamesAbsent(names, "ImmutableString") && NamesAbsent(names, "String")
    ensures ReplaceAll("ImmutableString", Substitutions(names)) == "String"
  {
    var t := "ImmutableString";
    var subs := Substitutions(names);
    forall j | 0 <= j < 6 ensures subs[j].0 != [] && !Contains(t, subs[j].0) {
      if j == 0 {
        LacksChar(t, subs[j].0, 8);
      } else if j == 2 {
        LacksChar(t, subs[j].0, 1);
      } else if j == 3 {
        assert subs[j].0 in EngineNames(names);
      } else {
        LacksChar(t, subs[j].0, 0);
      }
    }
    forall j | 6 < j < 13 ensures subs[j].0 != [] && !Contains("String", subs[j].0) {
      assert subs[j].0 in EngineNames(names);
    }
    ReplaceAllWhole(t, subs, 6);
  }

  /** `def_type_name("ImmutableString")` is `String`. */
  lemma DefTypeNameImmutableString(names: EngineTypeNames)
    requires NamesAbsent(names, "ImmutableString") && NamesAbsent(names, "String")
    ensures DefTypeName("ImmutableString", names) == "String"
  {
    DefTypeNameOfWord("ImmutableString", names);
    ReplaceImmutableString(names);
  }

  /**
   * `def_type_name("Result<INT, Box<EvalAltResult>>")` is `int`, in each of
   * the four spellings of the boxed error: the wrapper goes, then `INT` is
   * replaced.
   */
  lemma DefTypeNameResultInt(names: EngineTypeNames, k: nat)
    requires k < 4 && NamesAbsent(names, "INT") && NamesAbsent(names, "int")
    ensures DefTypeName("Result<" + "INT" + RESULT_ENDINGS[k], names) == "int"
  {
    BoxedEndingCloses(k);
    UnwrapResultWord("INT", k);
    DefTypeNameOfResult("INT", RESULT_ENDINGS[k], names);
    ReplaceInt(names);
  }

  /** A name without path that `remove_result` takes out of `Result<` + name + ending only goes through the replacements. */
  lemma DefTypeNameOfResult(t: string, ending: string, names: EngineTypeNames)
    requires t != [] && ':' !in t && ending != [] && ending[|ending| - 1] == '>'
    requires RemoveResult("Result<" + t + ending) == t
    ensures DefTypeName("Result<" + t + ending, names) == ReplaceAll(t, Substitutions(names))
  {
    var ty := "Result<" + t + ending;
    assert ty[0] == 'R' && ty[|ty| - 1] == '>';
    DefTypeNameOfUnwrapped(ty, t, names);
  }

  /** `remove_result` unwraps `Result<t, Box<EvalAltResult>>` to `t` when `t` is already trimmed. */
  lemma UnwrapResultWord(t: string, k: nat)
    requires k < 4 && t != [] && !IsWhitespace(t[0]) && !IsWhitespace(t[|t| - 1])
    ensures RemoveResult("Result<" + t + RESULT_ENDINGS[k]) == t
  {
    RemoveResultBoxed(t, k);
    TrimPlain(t);
  }

  lemma BoxedEndingCloses(k: nat)
    requires k < 4
    ensures RESULT_ENDINGS[k] != [] && RESULT_ENDINGS[k][|RESULT_ENDINGS[k]| - 1] == '>'
  {
    var e := RESULT_ENDINGS[k];
    assert e == BOXED_SPELLINGS[k] + BOXED_ERROR;
    assert e[|e| - 1] == BOXED_ERROR[|BOXED_ERROR| - 1];
  }

  /** A digit or a colon: every `std::any::type_name` of the engine's types holds one, as `i64` and `alloc::vec::Vec<..>` do. */
  predicate Marker(c: char)
  {
    IsDigit(c) || c == ':'
  }

  /** Each engine type name holds a digit or a colon. */
  predicate MarkedNames(names: EngineTypeNames)
  {
    forall n <- EngineNames(names) :: exists k :: 0 <= k < |n| && Marker(n[k])
  }

  /** Marked names cannot occur in a text without digits and colons. */
  lemma MarkedNamesAbsent(names: EngineTypeNames, s: string)
    requires MarkedNames(names) && forall c <- s :: !Marker(c)
    ensures NamesAbsent(names, s)
  {
    forall n <- EngineNames(names) ensures n != [] && !Contains(s, n) {
      var k :| 0 <= k < |n| && Marker(n[k]);
      LacksChar(s, n, k);
    }
  }

  /** None of the words the replacements read or write holds a marked name. */
  lemma WordsAbsent(names: EngineTypeNames)
    requires MarkedNames(names)
    ensures NamesAbsent(names, "INT") && NamesAbsent(names, "int") && NamesAbsent(names, "?")
    ensures NamesAbsent(names, "&str") && NamesAbsent(names, "ImmutableString") && NamesAbsent(names, "String")
  {
    MarkedNamesAbsent(names, "INT");
    MarkedNamesAbsent(names, "int");
    MarkedNamesAbsent(names, "?");
    StringWordsAbsent(names);
  }

  /** The string words of the replacements hold no marked name. */
  lemma StringWordsAbsent(names: EngineTypeNames)
    requires MarkedNames(names)
    ensures NamesAbsent(names, "&str") && NamesAbsent(names, "ImmutableString") && NamesAbsent(names, "String")
  {
    MarkedNamesAbsent(names, "&str");
    MarkedNamesAbsent(names, "String");
    ImmutableStringAbsent(names);
  }

  /** `ImmutableString` holds no marked name. */
  lemma ImmutableStringAbsent(names: EngineTypeNames)
    requires MarkedNames(names)
    ensures NamesAbsent(names, "ImmutableString")
  {
    MarkedNamesAbsent(names, "ImmutableString");
  }

  /**
   * With engine type names that each hold a digit or a colon, `INT` and
   * `Result<INT, Box<EvalAltResult>>` render as `int`, `Dynamic` as `?`,
   * and `&str` and `ImmutableString` as `String`.
   */
  lemma ReadableTypeNames(names: EngineTypeNames)
    requires MarkedNames(names)
    ensures DefTypeName("INT", names) == "int"
    ensures forall k :: 0 <= k < 4 ==> DefTypeName("Result<" + "INT" + RESULT_ENDINGS[k], names) == "int"
    ensures DefTypeName("Dynamic", names) == "?"
    ensures DefTypeName("&str", names) == "String"
    ensures DefTypeName("ImmutableString", names) == "String"
  {
    WordsAbsent(names);
    DefTypeNameInt(names);
    forall k | 0 <= k < 4 ensures DefTypeName("Result<" + "INT" + RESULT_ENDINGS[k], names) == "int" {
      DefTypeNameResultInt(names, k);
    }
    DefTypeNameDynamic(names);
    DefTypeNameStr(names);
    DefTypeNameImmutableString(names);
  }

  /** With the readable namer, `a: INT, b: INT` render as `a: int, b: int`. */
  lemma AddParamsReadable(names: EngineTypeNames)
    requires NamesAbsent(names, "INT") && NamesAbsent(names, "int")
    ensures ParamList(2, Some([map["name" := "a", "type" := "INT"], map["name" := "b", "type" := "INT"]]), TypeNamer(names))
         == Success("a: int, b: int")
  {
    DefTypeNameInt(names);
    AddParams(TypeNamer(names));
  }
}
