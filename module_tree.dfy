/**
 * The module tree: overloads grouped by their normalised name, the items of
 * one module level built and ordered, and the sub-modules documented
 * recursively under `parent/child` namespaces.
 *
 * Two things the build depends on are not part of this model and are
 * parameters: `nameOf`, the normalised name the newer function-definition
 * API gives an overload, and `enumerate`, the order in which a hash map of
 * groups hands out its keys.
 */
module ModuleTree {
  import opened Wrappers
  import opened Text
  import opened Records
  import opened Sorting
  import opened DocComments
  import Export
  import opened DocItems
  import opened ItemOrdering

  /** Overloads keyed by their normalised name. */
  type Groups = map<string, seq<FunctionMetadata>>

  // ---------------------------------------------------------------------------
  // Grouping overloads

  /** The groups `group_functions` has built once it has seen `functions`. */
  function Grouped(functions: seq<FunctionMetadata>, nameOf: FunctionMetadata -> string): Groups
  {
    if functions == [] then map[]
    else
      var groups := Grouped(functions[..|functions| - 1], nameOf);
      var metadata := functions[|functions| - 1];
      var name := nameOf(metadata);
      if name in groups then groups[name := groups[name] + [metadata]]
      else groups[name := [metadata]]
  }

  /** `group_functions`: each overload is pushed onto its name's group, or starts one. */
  method GroupFunctions(functions: seq<FunctionMetadata>, nameOf: FunctionMetadata -> string) returns (groups: Groups)
    ensures groups == Grouped(functions, nameOf)
  {
    groups := map[];
    for i := 0 to |functions|
      invariant groups == Grouped(functions[..i], nameOf)
    {
      assert functions[..i + 1][..i] == functions[..i];
      var metadata := functions[i];
      var name := nameOf(metadata);
      if name in groups {
        groups := groups[name := groups[name] + [metadata]];
      } else {
        groups := groups[name := [metadata]];
      }
    }
    assert functions[..|functions|] == functions;
  }

  /**
   * There is a group for exactly the names that occur, and the group of a
   * name holds the overloads with that name, in input order.
   */
  lemma {:induction false} GroupedByName(functions: seq<FunctionMetadata>, nameOf: FunctionMetadata -> string)
    ensures forall k :: k in Grouped(functions, nameOf) <==> exists i :: 0 <= i < |functions| && nameOf(functions[i]) == k
    ensures forall k :: k in Grouped(functions, nameOf) ==> Grouped(functions, nameOf)[k] == WithKey(functions, nameOf, k)
  {
    if functions != [] {
      var init := functions[..|functions| - 1];
      var last := functions[|functions| - 1];
      GroupedByName(init, nameOf);
      var groups := Grouped(functions, nameOf);
      forall k ensures k in groups <==> exists i :: 0 <= i < |functions| && nameOf(functions[i]) == k {
        if k == nameOf(last) {
          assert nameOf(functions[|functions| - 1]) == k;
        } else if k in groups {
          assert k in Grouped(init, nameOf);
          var i :| 0 <= i < |init| && nameOf(init[i]) == k;
          assert functions[i] == init[i];
          assert nameOf(functions[i]) == k;
        }
        if exists i :: 0 <= i < |functions| && nameOf(functions[i]) == k {
          var i :| 0 <= i < |functions| && nameOf(functions[i]) == k;
          if i < |init| {
            assert init[i] == functions[i];
            assert nameOf(init[i]) == k;
            assert k in Grouped(init, nameOf);
          }
        }
      }
      forall k | k in groups ensures groups[k] == WithKey(functions, nameOf, k) {
        if k !in Grouped(init, nameOf) {
          WithKeyNone(init, nameOf, k);
        }
      }
    }
  }

  /** Every member of a group carries the group's name. */
  lemma {:induction false} WithKeyHasKey<T, K>(s: seq<T>, key: T -> K, k: K)
    ensures forall x :: x in WithKey(s, key, k) ==> key(x) == k
  {
    if s != [] {
      WithKeyHasKey(s[..|s| - 1], key, k);
    }
  }

  /** Every element with the key is kept. */
  lemma {:induction false} WithKeyKeeps<T, K>(s: seq<T>, key: T -> K, i: nat)
    requires i < |s|
    ensures s[i] in WithKey(s, key, key(s[i]))
  {
    if i < |s| - 1 {
      WithKeyKeeps(s[..|s| - 1], key, i);
    }
  }

  /**
   * Two overloads share a group exactly when their normalised names are
   * equal: the group of `functions[i]` holds `functions[j]` iff the names
   * agree.
   */
  lemma SameGroupIffSameName(functions: seq<FunctionMetadata>, nameOf: FunctionMetadata -> string, i: nat, j: nat)
    requires i < |functions| && j < |functions|
    ensures nameOf(functions[i]) in Grouped(functions, nameOf)
    ensures functions[j] in Grouped(functions, nameOf)[nameOf(functions[i])] <==> nameOf(functions[j]) == nameOf(functions[i])
  {
    GroupedByName(functions, nameOf);
    WithKeyHasKey(functions, nameOf, nameOf(functions[i]));
    WithKeyKeeps(functions, nameOf, j);
  }

  /** The sizes of the groups listed in `keys`, added up. */
  function TotalSize(groups: Groups, keys: seq<string>): nat
  {
    if keys == [] then 0
    else (if keys[0] in groups then |groups[keys[0]]| else 0) + TotalSize(groups, keys[1..])
  }

  predicate Distinct(keys: seq<string>)
  {
    forall i, j :: 0 <= i < j < |keys| ==> keys[i] != keys[j]
  }

  lemma {:induction false} TotalSizeOther(groups: Groups, keys: seq<string>, name: string, group: seq<FunctionMetadata>)
    requires name !in keys
    ensures TotalSize(groups[name := group], keys) == TotalSize(groups, keys)
  {
    if keys != [] {
      TotalSizeOther(groups, keys[1..], name, group);
    }
  }

  lemma {:induction false} TotalSizeOfNothing(keys: seq<string>)
    ensures TotalSize(map[], keys) == 0
  {
    if keys != [] {
      TotalSizeOfNothing(keys[1..]);
    }
  }

  /** Pushing one overload onto a listed group adds one to the total. */
  lemma {:induction false} TotalSizePush(groups: Groups, keys: seq<string>, name: string, metadata: FunctionMetadata)
    requires Distinct(keys) && name in keys
    ensures TotalSize(groups[name := (if name in groups then groups[name] else []) + [metadata]], keys)
         == TotalSize(groups, keys) + 1
  {
    var group := (if name in groups then groups[name] else []) + [metadata];
    if keys[0] == name {
      assert name !in keys[1..] by {
        forall j | 0 <= j < |keys[1..]| ensures keys[1..][j] != name {
          assert keys[1..][j] == keys[j + 1];
        }
      }
      TotalSizeOther(groups, keys[1..], name, group);
    } else {
      TotalSizePush(groups, keys[1..], name, metadata);
    }
  }

  /**
   * Every overload lands in exactly one group: over any duplicate-free list
   * of names that covers the input, the group sizes add up to the number of
   * overloads.
   */
  lemma {:induction false} GroupedSizes(functions: seq<FunctionMetadata>, nameOf: FunctionMetadata -> string, keys: seq<string>)
    requires Distinct(keys)
    requires forall i :: 0 <= i < |functions| ==> nameOf(functions[i]) in keys
    ensures TotalSize(Grouped(functions, nameOf), keys) == |functions|
  {
    if functions == [] {
      TotalSizeOfNothing(keys);
    } else {
      var init := functions[..|functions| - 1];
      var last := functions[|functions| - 1];
      assert forall i :: 0 <= i < |init| ==> init[i] == functions[i];
      GroupedSizes(init, nameOf, keys);
      assert nameOf(last) in keys;
      var groups := Grouped(init, nameOf);
      assert [] + [last] == [last];
      assert Grouped(functions, nameOf)
          == groups[nameOf(last) := (if nameOf(last) in groups then groups[nameOf(last)] else []) + [last]];
      TotalSizePush(Grouped(init, nameOf), keys, nameOf(last), last);
    }
  }

  /** `keys` lists the names of `groups`, each once: one order a hash map may hand them out in. */
  predicate Enumerates(keys: seq<string>, groups: Groups)
  {
    && Distinct(keys)
    && (forall k | k in keys :: k in groups)
    && (forall k | k in groups :: k in keys)
  }

  /** Whatever order the groups are visited in, they hold every overload once. */
  lemma GroupsPartition(functions: seq<FunctionMetadata>, nameOf: FunctionMetadata -> string, keys: seq<string>)
    requires Enumerates(keys, Grouped(functions, nameOf))
    ensures TotalSize(Grouped(functions, nameOf), keys) == |functions|
  {
    GroupedByName(functions, nameOf);
    forall i | 0 <= i < |functions| ensures nameOf(functions[i]) in keys {
      assert nameOf(functions[i]) in Grouped(functions, nameOf);
    }
    GroupedSizes(functions, nameOf, keys);
  }

  // ---------------------------------------------------------------------------
  // The items of one module level

  /**
   * The items `build` gives for `xs`, in order, or the first error: the
   * loop that pushes each result and returns at the first `?`.
   */
  function BuildAll<T, U>(xs: seq<T>, build: T -> Result<U, AutodocsError>): (r: Result<seq<U>, AutodocsError>)
    ensures r.Success? ==> |r.value| == |xs|
  {
    if xs == [] then Success([])
    else
      match BuildAll(xs[..|xs| - 1], build)
      case Failure(e) => Failure(e)
      case Success(items) =>
        match build(xs[|xs| - 1])
        case Failure(e) => Failure(e)
        case Success(item) => Success(items + [item])
  }

  /**
   * The loop succeeds iff every item builds; it then holds every item in
   * order, and otherwise reports the error of the first item that failed.
   */
  lemma {:induction false} BuildAllSpec<T, U>(xs: seq<T>, build: T -> Result<U, AutodocsError>)
    ensures BuildAll(xs, build).Success? <==> forall i :: 0 <= i < |xs| ==> build(xs[i]).Success?
    ensures BuildAll(xs, build).Success? ==>
      forall i :: 0 <= i < |xs| ==> BuildAll(xs, build).value[i] == build(xs[i]).value
    ensures BuildAll(xs, build).Failure? ==> exists i :: (
      && 0 <= i < |xs|
      && build(xs[i]) == Failure(BuildAll(xs, build).error)
      && forall j :: 0 <= j < i ==> build(xs[j]).Success?)
  {
    if xs != [] {
      var init := xs[..|xs| - 1];
      BuildAllSpec(init, build);
      assert forall i :: 0 <= i < |init| ==> init[i] == xs[i];
      if BuildAll(init, build).Failure? {
        var i :| 0 <= i < |init| && build(init[i]) == Failure(BuildAll(init, build).error)
          && forall j :: 0 <= j < i ==> build(init[j]).Success?;
        assert build(xs[i]) == Failure(BuildAll(xs, build).error);
      }
    }
  }

  /** Once a prefix has failed, the whole loop fails with the same error. */
  lemma {:induction false} BuildAllStops<T, U>(xs: seq<T>, build: T -> Result<U, AutodocsError>, n: nat)
    requires n <= |xs| && BuildAll(xs[..n], build).Failure?
    ensures BuildAll(xs, build) == BuildAll(xs[..n], build)
  {
    if n < |xs| {
      var init := xs[..|xs| - 1];
      assert init[..n] == xs[..n];
      BuildAllStops(init, build, n);
    } else {
      assert xs[..n] == xs;
    }
  }

  /** The loop over custom types: an error returns at once. */
  method CollectCustomTypes(types: seq<CustomTypesMetadata>, options: Export.Options) returns (r: Result<seq<Option<DocItem>>, AutodocsError>)
    ensures r == BuildAll(types, CustomTypeItem(options))
  {
    var items := [];
    for i := 0 to |types|
      invariant BuildAll(types[..i], CustomTypeItem(options)) == Success(items)
    {
      assert types[..i + 1][..i] == types[..i];
      var item := CustomTypeItem(options)(types[i]);
      match item {
        case Failure(e) =>
          BuildAllStops(types, CustomTypeItem(options), i + 1);
          return Failure(e);
        case Success(x) =>
          items := items + [x];
      }
    }
    assert types[..|types|] == types;
    return Success(items);
  }

  /** `new_custom_type` under fixed options. */
  function CustomTypeItem(options: Export.Options): CustomTypesMetadata -> Result<Option<DocItem>, AutodocsError>
  {
    (t: CustomTypesMetadata) => NewCustomType(t, options)
  }

  /** The function items of the groups visited in `keys` order; a group whose item fails is skipped. */
  function FunctionItems(groups: Groups, keys: seq<string>, options: Export.Options): (r: seq<Option<DocItem>>)
    ensures |r| <= |keys|
  {
    if keys == [] then []
    else
      var items := FunctionItems(groups, keys[..|keys| - 1], options);
      var name := keys[|keys| - 1];
      if name in groups then
        match NewFunction(groups[name], name, options)
        case Success(item) => items + [item]
        case Failure(_) => items
      else items
  }

  /** The loop over groups: `if let Ok` keeps the successes only. */
  method CollectFunctions(groups: Groups, keys: seq<string>, options: Export.Options) returns (items: seq<Option<DocItem>>)
    ensures items == FunctionItems(groups, keys, options)
  {
    items := [];
    for i := 0 to |keys|
      invariant items == FunctionItems(groups, keys[..i], options)
    {
      assert keys[..i + 1][..i] == keys[..i];
      var name := keys[i];
      if name in groups {
        var item := NewFunction(groups[name], name, options);
        if item.Success? {
          items := items + [item.value];
        }
      }
    }
    assert keys[..|keys|] == keys;
  }

  /** A function item comes from a visited group whose item was built. */
  lemma {:induction false} FunctionItemsFrom(groups: Groups, keys: seq<string>, options: Export.Options)
    ensures forall item :: Some(item) in FunctionItems(groups, keys, options) ==>
      exists name :: name in keys && name in groups && NewFunction(groups[name], name, options) == Success(Some(item))
  {
    if keys != [] {
      var init := keys[..|keys| - 1];
      FunctionItemsFrom(groups, init, options);
      forall item | Some(item) in FunctionItems(groups, keys, options)
        ensures exists name :: name in keys && name in groups && NewFunction(groups[name], name, options) == Success(Some(item))
      {
        if Some(item) in FunctionItems(groups, init, options) {
          var name :| name in init && name in groups && NewFunction(groups[name], name, options) == Success(Some(item));
          assert name in keys;
        }
      }
    }
  }

  /** Every group that is visited and yields an item contributes it. */
  lemma {:induction false} FunctionItemsKeep(groups: Groups, keys: seq<string>, options: Export.Options, name: string)
    requires name in keys && name in groups && NewFunction(groups[name], name, options).Success?
    ensures NewFunction(groups[name], name, options).value in FunctionItems(groups, keys, options)
  {
    if keys[|keys| - 1] != name {
      var init := keys[..|keys| - 1];
      assert keys == init + [keys[|keys| - 1]];
      FunctionItemsKeep(groups, init, options, name);
    }
  }

  /** `flatten`: the present items, in order. */
  function Flatten(xs: seq<Option<DocItem>>): (r: seq<DocItem>)
    ensures |r| <= |xs|
    ensures forall x :: x in r <==> Some(x) in xs
  {
    if xs == [] then []
    else
      var rest := Flatten(xs[..|xs| - 1]);
      var last := xs[|xs| - 1];
      assert xs == xs[..|xs| - 1] + [last];
      if last.Some? then rest + [last.value] else rest
  }

  lemma {:induction false} FlattenAppend(xs: seq<Option<DocItem>>, ys: seq<Option<DocItem>>)
    ensures Flatten(xs + ys) == Flatten(xs) + Flatten(ys)
    decreases |ys|
  {
    if ys == [] {
      assert xs + ys == xs;
    } else {
      var init := ys[..|ys| - 1];
      assert (xs + ys)[..|xs + ys| - 1] == xs + init;
      var last := ys[|ys| - 1];
      assert (xs + ys)[|xs + ys| - 1] == last;
      FlattenAppend(xs, init);
      assert Flatten(xs + ys) == Flatten(xs + init) + (if last.Some? then [last.value] else []);
      assert Flatten(ys) == Flatten(init) + (if last.Some? then [last.value] else []);
    }
  }

  function TypesOf(metadata: ModuleMetadata): seq<CustomTypesMetadata>
  {
    if metadata.customTypes.Some? then metadata.customTypes.value else []
  }

  function FunctionsOf(metadata: ModuleMetadata): seq<FunctionMetadata>
  {
    if metadata.functions.Some? then metadata.functions.value else []
  }

  /** The items gathered before ordering: custom types first, then function groups. */
  function Gathered(options: Export.Options, metadata: ModuleMetadata, nameOf: FunctionMetadata -> string,
                    enumerate: Groups -> seq<string>): Result<seq<DocItem>, AutodocsError>
  {
    match BuildAll(TypesOf(metadata), CustomTypeItem(options))
    case Failure(e) => Failure(e)
    case Success(custom) =>
      var groups := Grouped(FunctionsOf(metadata), nameOf);
      Success(Flatten(custom) + Flatten(FunctionItems(groups, enumerate(groups), options)))
  }

  /** The items of a module level, ordered by the options' item order. */
  function ModuleItems(options: Export.Options, metadata: ModuleMetadata, nameOf: FunctionMetadata -> string,
                       enumerate: Groups -> seq<string>): Result<seq<DocItem>, AutodocsError>
  {
    match Gathered(options, metadata, nameOf, enumerate)
    case Failure(e) => Failure(e)
    case Success(items) => Success(OrderedItems(options.itemsOrder, items))
  }

  // ---------------------------------------------------------------------------
  // The module tree

  datatype ModuleDocumentation = ModuleDocumentation(
    namespace: string,
    name: string,
    documentation: string,
    subModules: seq<ModuleDocumentation>,
    items: seq<DocItem>)

  /** The module's own text: markers stripped, hidden test lines removed, or empty. */
  function ModuleText(doc: Option<string>): string
  {
    if doc.Some? then WithoutTestCode(FmtDocComments(doc.value)) else ""
  }

  function SubModulesOf(metadata: ModuleMetadata): seq<(string, RawModule)>
  {
    if metadata.modules.Listed? then metadata.modules.entries else []
  }

  /** `generate_module_documentation_inner`, as a value. */
  function ModuleDoc(options: Export.Options, namespace: Option<string>, name: string, metadata: ModuleMetadata,
                     nameOf: FunctionMetadata -> string, enumerate: Groups -> seq<string>): Result<ModuleDocumentation, AutodocsError>
    decreases metadata, 2, 0
  {
    var ns := if namespace.Some? then namespace.value else name;
    match ModuleItems(options, metadata, nameOf, enumerate)
    case Failure(e) => Failure(e)
    case Success(items) =>
      match SubModuleDocs(options, ns, SubModulesOf(metadata), metadata, nameOf, enumerate)
      case Failure(e) => Failure(e)
      case Success(subModules) => Success(ModuleDocumentation(ns, name, ModuleText(metadata.doc), subModules, items))
  }

  /** The sub-modules in order, each documented under `namespace/key`; the first error aborts. */
  function SubModuleDocs(options: Export.Options, namespace: string, subs: seq<(string, RawModule)>, parent: ModuleMetadata,
                         nameOf: FunctionMetadata -> string, enumerate: Groups -> seq<string>): Result<seq<ModuleDocumentation>, AutodocsError>
    requires subs <= SubModulesOf(parent)
    decreases parent, 1, |subs|
  {
    if subs == [] then Success([])
    else
      match SubModuleDocs(options, namespace, subs[..|subs| - 1], parent, nameOf, enumerate)
      case Failure(e) => Failure(e)
      case Success(docs) =>
        assert subs[|subs| - 1] == SubModulesOf(parent)[|subs| - 1];
        match EntryDoc(options, namespace, subs[|subs| - 1], parent, nameOf, enumerate)
        case Failure(e) => Failure(e)
        case Success(doc) => Success(docs + [doc])
  }

  /** One sub-module: a value that does not decode is a `Metadata` error, a decoded one is documented. */
  function EntryDoc(options: Export.Options, namespace: string, entry: (string, RawModule), parent: ModuleMetadata,
                    nameOf: FunctionMetadata -> string, enumerate: Groups -> seq<string>): Result<ModuleDocumentation, AutodocsError>
    requires entry in SubModulesOf(parent)
    decreases parent, 0, 0
  {
    match entry.1
    case Malformed(reason) => Failure(Metadata(reason))
    case Decoded(child) => ModuleDoc(options, Some(namespace + "/" + entry.0), entry.0, child, nameOf, enumerate)
  }

  /** Once a prefix of the sub-modules has failed, the whole loop fails with the same error. */
  lemma {:induction false} SubModuleDocsStops(options: Export.Options, namespace: string, subs: seq<(string, RawModule)>,
                                              parent: ModuleMetadata, nameOf: FunctionMetadata -> string,
                                              enumerate: Groups -> seq<string>, n: nat)
    requires subs <= SubModulesOf(parent) && n <= |subs|
    requires SubModuleDocs(options, namespace, subs[..n], parent, nameOf, enumerate).Failure?
    ensures SubModuleDocs(options, namespace, subs, parent, nameOf, enumerate)
         == SubModuleDocs(options, namespace, subs[..n], parent, nameOf, enumerate)
    decreases |subs|
  {
    if n < |subs| {
      var init := subs[..|subs| - 1];
      assert init[..n] == subs[..n];
      SubModuleDocsStops(options, namespace, init, parent, nameOf, enumerate, n);
    } else {
      assert subs[..n] == subs;
    }
  }

  /** `generate_module_documentation` once the metadata is decoded: the root is `global`. */
  function Documentation(options: Export.Options, metadata: ModuleMetadata, nameOf: FunctionMetadata -> string,
                         enumerate: Groups -> seq<string>): Result<ModuleDocumentation, AutodocsError>
  {
    ModuleDoc(options, None, "global", metadata, nameOf, enumerate)
  }

  /** The items of one level: custom types (an error returns), function groups (errors skipped), ordered. */
  method CollectItems(options: Export.Options, metadata: ModuleMetadata, nameOf: FunctionMetadata -> string,
                      enumerate: Groups -> seq<string>) returns (r: Result<seq<DocItem>, AutodocsError>)
    ensures r == ModuleItems(options, metadata, nameOf, enumerate)
  {
    var custom := CollectCustomTypes(TypesOf(metadata), options);
    if custom.Failure? {
      return Failure(custom.error);
    }
    var items := custom.value;
    if metadata.functions.Some? {
      var groups := GroupFunctions(metadata.functions.value, nameOf);
      var functionItems := CollectFunctions(groups, enumerate(groups), options);
      FlattenAppend(items, functionItems);
      items := items + functionItems;
    } else {
      FunctionItemsOfNothing(enumerate(map[]), options);
      FlattenAppend(items, []);
      assert items + [] == items;
    }
    var ordered := OrderItems(options.itemsOrder, Flatten(items));
    return Success(ordered);
  }

  /** The module's own text, formatted as the source does it. */
  method FormatModuleText(doc: Option<string>) returns (text: string)
    ensures text == ModuleText(doc)
  {
    text := "";
    if doc.Some? {
      text := RemoveTestCode(FmtDocComments(doc.value));
    }
  }

  /** The recursive build, as the source runs it. */
  method GenerateInner(options: Export.Options, namespace: Option<string>, name: string, metadata: ModuleMetadata,
                       nameOf: FunctionMetadata -> string, enumerate: Groups -> seq<string>) returns (r: Result<ModuleDocumentation, AutodocsError>)
    ensures r == ModuleDoc(options, namespace, name, metadata, nameOf, enumerate)
    decreases metadata, 2
  {
    var ns := if namespace.Some? then namespace.value else name;
    var documentation := FormatModuleText(metadata.doc);
    var items := CollectItems(options, metadata, nameOf, enumerate);
    if items.Failure? {
      return Failure(items.error);
    }
    var subModules := GenerateSubModules(options, ns, metadata, nameOf, enumerate);
    if subModules.Failure? {
      return Failure(subModules.error);
    }
    return Success(ModuleDocumentation(ns, name, documentation, subModules.value, items.value));
  }

  /** The loop over sub-modules: the first failure returns at once. */
  method GenerateSubModules(options: Export.Options, namespace: string, metadata: ModuleMetadata,
                            nameOf: FunctionMetadata -> string, enumerate: Groups -> seq<string>)
    returns (r: Result<seq<ModuleDocumentation>, AutodocsError>)
    ensures r == SubModuleDocs(options, namespace, SubModulesOf(metadata), metadata, nameOf, enumerate)
    decreases metadata, 1
  {
    var subModules := [];
    var subs := SubModulesOf(metadata);
    for i := 0 to |subs|
      invariant SubModuleDocs(options, namespace, subs[..i], metadata, nameOf, enumerate) == Success(subModules)
    {
      assert subs[..i + 1][..i] == subs[..i];
      assert subs[i] in subs;
      var doc := GenerateEntry(options, namespace, subs[i], metadata, nameOf, enumerate);
      if doc.Failure? {
        SubModuleDocsStops(options, namespace, subs, metadata, nameOf, enumerate, i + 1);
        return Failure(doc.error);
      }
      subModules := subModules + [doc.value];
    }
    assert subs[..|subs|] == subs;
    return Success(subModules);
  }

  /** One sub-module: decoded (`?` on a decode error), then documented under `namespace/key`. */
  method GenerateEntry(options: Export.Options, namespace: string, entry: (string, RawModule), parent: ModuleMetadata,
                       nameOf: FunctionMetadata -> string, enumerate: Groups -> seq<string>)
    returns (r: Result<ModuleDocumentation, AutodocsError>)
    requires entry in SubModulesOf(parent)
    ensures r == EntryDoc(options, namespace, entry, parent, nameOf, enumerate)
    decreases parent, 0
  {
    match entry.1 {
      case Malformed(reason) =>
        return Failure(Metadata(reason));
      case Decoded(child) =>
        r := GenerateInner(options, Some(namespace + "/" + entry.0), entry.0, child, nameOf, enumerate);
    }
  }

  /** With no groups there are no function items, whatever is visited. */
  lemma {:induction false} FunctionItemsOfNothing(keys: seq<string>, options: Export.Options)
    ensures FunctionItems(map[], keys, options) == []
  {
    if keys != [] {
      FunctionItemsOfNothing(keys[..|keys| - 1], options);
    }
  }

  /** `generate_module_documentation` from decoded metadata. */
  method GenerateModuleDocumentation(options: Export.Options, metadata: ModuleMetadata,
                                     nameOf: FunctionMetadata -> string, enumerate: Groups -> seq<string>) returns (r: Result<ModuleDocumentation, AutodocsError>)
    ensures r == Documentation(options, metadata, nameOf, enumerate)
    ensures r.Success? ==> r.value.namespace == "global" && r.value.name == "global"
  {
    r := GenerateInner(options, None, "global", metadata, nameOf, enumerate);
  }

  // ---------------------------------------------------------------------------
  // What the build promises

  /** The comments an item was indexed from: its root overload's, or the custom type's. */
  function RootComments(item: DocItem): Option<seq<string>>
  {
    match item
    case Function(root, _, _, _) => root.docComments
    case CustomType(metadata, _) => metadata.docComments
  }

  /**
   * Only custom types can make a level fail: the items build exactly when
   * every custom type does, and otherwise the error is the first failing
   * custom type's.  A function group whose item fails is skipped.
   */
  lemma ItemsFailOnlyOnCustomTypes(options: Export.Options, metadata: ModuleMetadata,
                                   nameOf: FunctionMetadata -> string, enumerate: Groups -> seq<string>)
    ensures var types := TypesOf(metadata);
      ModuleItems(options, metadata, nameOf, enumerate).Success?
      <==> forall i :: 0 <= i < |types| ==> NewCustomType(types[i], options).Success?
    ensures var types := TypesOf(metadata);
      ModuleItems(options, metadata, nameOf, enumerate).Failure? ==> exists i :: (
        && 0 <= i < |types|
        && NewCustomType(types[i], options) == Failure(ModuleItems(options, metadata, nameOf, enumerate).error)
        && forall j :: 0 <= j < i ==> NewCustomType(types[j], options).Success?)
  {
    BuildAllSpec(TypesOf(metadata), CustomTypeItem(options));
  }

  /** `item` is what `new_custom_type` built for one of `types`. */
  predicate BuiltFromType(options: Export.Options, types: seq<CustomTypesMetadata>, item: DocItem)
  {
    exists i :: 0 <= i < |types| && NewCustomType(types[i], options) == Success(Some(item))
  }

  /** `item` is what `new_function` built for one of the visited groups. */
  predicate BuiltFromGroup(options: Export.Options, groups: Groups, keys: seq<string>, item: DocItem)
  {
    exists name :: name in keys && name in groups && NewFunction(groups[name], name, options) == Success(Some(item))
  }

  /** A present custom-type item is the item of some custom type, and each built one is present. */
  lemma CustomItemsMembers(options: Export.Options, types: seq<CustomTypesMetadata>, item: DocItem)
    requires BuildAll(types, CustomTypeItem(options)).Success?
    ensures item in Flatten(BuildAll(types, CustomTypeItem(options)).value) <==> BuiltFromType(options, types, item)
  {
    var custom := BuildAll(types, CustomTypeItem(options)).value;
    BuildAllSpec(types, CustomTypeItem(options));
    if Some(item) in custom {
      var i :| 0 <= i < |custom| && custom[i] == Some(item);
      assert NewCustomType(types[i], options) == Success(Some(item));
    }
    if exists i :: 0 <= i < |types| && NewCustomType(types[i], options) == Success(Some(item)) {
      var i :| 0 <= i < |types| && NewCustomType(types[i], options) == Success(Some(item));
      assert custom[i] == Some(item);
    }
  }

  /** A present function item is the item of a visited group, and each visited group's item is present. */
  lemma FunctionItemsMembers(options: Export.Options, groups: Groups, keys: seq<string>, item: DocItem)
    ensures item in Flatten(FunctionItems(groups, keys, options)) <==> BuiltFromGroup(options, groups, keys, item)
  {
    FunctionItemsFrom(groups, keys, options);
    if exists name :: name in keys && name in groups && NewFunction(groups[name], name, options) == Success(Some(item)) {
      var name :| name in keys && name in groups && NewFunction(groups[name], name, options) == Success(Some(item));
      FunctionItemsKeep(groups, keys, options, name);
    }
  }

  /**
   * The items of a level are exactly the custom types and the visited
   * function groups that gave an item; `None` results are gone.
   */
  lemma ModuleItemsMembers(options: Export.Options, metadata: ModuleMetadata,
                           nameOf: FunctionMetadata -> string, enumerate: Groups -> seq<string>, item: DocItem)
    requires ModuleItems(options, metadata, nameOf, enumerate).Success?
    ensures var types := TypesOf(metadata);
      var groups := Grouped(FunctionsOf(metadata), nameOf);
      item in ModuleItems(options, metadata, nameOf, enumerate).value
      <==> BuiltFromType(options, types, item) || BuiltFromGroup(options, groups, enumerate(groups), item)
  {
    var types := TypesOf(metadata);
    var groups := Grouped(FunctionsOf(metadata), nameOf);
    var custom := Flatten(BuildAll(types, CustomTypeItem(options)).value);
    var functions := Flatten(FunctionItems(groups, enumerate(groups), options));
    OrderedItemsSpec(options.itemsOrder, custom + functions);
    var items := OrderedItems(options.itemsOrder, custom + functions);
    assert Gathered(options, metadata, nameOf, enumerate) == Success(custom + functions);
    assert ModuleItems(options, metadata, nameOf, enumerate).value == items;
    assert item in items <==> item in custom + functions by {
      assert item in items <==> item in multiset(items);
      assert item in custom + functions <==> item in multiset(custom + functions);
    }
    CustomItemsMembers(options, types, item);
    FunctionItemsMembers(options, groups, enumerate(groups), item);
  }

  /**
   * In by-index mode every item that survives carries the index its
   * comments declare; an item whose comments have no directive is gone.
   */
  lemma ByIndexItemsCarryDirective(options: Export.Options, metadata: ModuleMetadata,
                                   nameOf: FunctionMetadata -> string, enumerate: Groups -> seq<string>, item: DocItem)
    requires options.itemsOrder == Export.ByIndex
    requires ModuleItems(options, metadata, nameOf, enumerate).Success?
    requires item in ModuleItems(options, metadata, nameOf, enumerate).value
    ensures DirectiveIndex(CommentLines(RootComments(item))) == Success(Some(Index(item)))
  {
    ModuleItemsMembers(options, metadata, nameOf, enumerate, item);
    var types := TypesOf(metadata);
    var groups := Grouped(FunctionsOf(metadata), nameOf);
    if BuiltFromType(options, types, item) {
      var i :| 0 <= i < |types| && NewCustomType(types[i], options) == Success(Some(item));
    } else {
      var name :| name in enumerate(groups) && name in groups && NewFunction(groups[name], name, options) == Success(Some(item));
      var k := FirstDocumented(groups[name]);
      assert k < |groups[name]| && !StartsWith(name, "anon$");
      assert item.rootMetadata == groups[name][k];
    }
  }

  /**
   * Among items with the same sort key the custom types come first, in
   * declaration order, then the function items in visiting order: the sort
   * is stable and custom types are gathered first.
   */
  lemma CustomTypesFirstAmongEquals(options: Export.Options, metadata: ModuleMetadata,
                                    nameOf: FunctionMetadata -> string, enumerate: Groups -> seq<string>)
    requires ModuleItems(options, metadata, nameOf, enumerate).Success?
    ensures var items := ModuleItems(options, metadata, nameOf, enumerate).value;
      var groups := Grouped(FunctionsOf(metadata), nameOf);
      var custom := Flatten(BuildAll(TypesOf(metadata), CustomTypeItem(options)).value);
      var functions := Flatten(FunctionItems(groups, enumerate(groups), options));
      && (options.itemsOrder == Export.ByIndex ==> forall k ::
            WithKey(items, Index, k) == WithKey(custom, Index, k) + WithKey(functions, Index, k))
      && (options.itemsOrder == Export.Alphabetical ==> forall n ::
            WithKey(items, Name, n) == WithKey(custom, Name, n) + WithKey(functions, Name, n))
  {
    var groups := Grouped(FunctionsOf(metadata), nameOf);
    var custom := Flatten(BuildAll(TypesOf(metadata), CustomTypeItem(options)).value);
    var functions := Flatten(FunctionItems(groups, enumerate(groups), options));
    OrderedItemsSpec(options.itemsOrder, custom + functions);
    forall k: nat {
      WithKeyAppend(custom, functions, Index, k);
    }
    forall n: string {
      WithKeyAppend(custom, functions, Name, n);
    }
  }

  /** A level is named as called, and its namespace is the one given, or its name at the root. */
  lemma ModuleDocNames(options: Export.Options, namespace: Option<string>, name: string, metadata: ModuleMetadata,
                       nameOf: FunctionMetadata -> string, enumerate: Groups -> seq<string>)
    requires ModuleDoc(options, namespace, name, metadata, nameOf, enumerate).Success?
    ensures var doc := ModuleDoc(options, namespace, name, metadata, nameOf, enumerate).value;
      && doc.name == name
      && doc.namespace == (if namespace.Some? then namespace.value else name)
      && doc.documentation == ModuleText(metadata.doc)
      && ModuleItems(options, metadata, nameOf, enumerate) == Success(doc.items)
  {
  }

  /** `EntryOutcome` under fixed options and namespace. */
  function EntryOutcomes(options: Export.Options, namespace: string, nameOf: FunctionMetadata -> string,
                         enumerate: Groups -> seq<string>): ((string, RawModule)) -> Result<ModuleDocumentation, AutodocsError>
  {
    (entry: (string, RawModule)) => EntryOutcome(options, namespace, entry, nameOf, enumerate)
  }

  /** The sub-module loop is the first-error loop over the entries' outcomes. */
  lemma {:induction false} SubModuleDocsIsBuildAll(options: Export.Options, namespace: string, subs: seq<(string, RawModule)>,
                                                   parent: ModuleMetadata, nameOf: FunctionMetadata -> string,
                                                   enumerate: Groups -> seq<string>)
    requires subs <= SubModulesOf(parent)
    ensures SubModuleDocs(options, namespace, subs, parent, nameOf, enumerate)
         == BuildAll(subs, EntryOutcomes(options, namespace, nameOf, enumerate))
    decreases |subs|
  {
    if subs != [] {
      var last := subs[|subs| - 1];
      SubModuleDocsIsBuildAll(options, namespace, subs[..|subs| - 1], parent, nameOf, enumerate);
      assert last == SubModulesOf(parent)[|subs| - 1];
      EntryDocOutcome(options, namespace, last, parent, nameOf, enumerate);
    }
  }

  /**
   * The sub-module loop succeeds exactly when every entry does, and then
   * holds one documentation per entry, in order.
   */
  lemma SubModuleDocsSucceed(options: Export.Options, namespace: string, subs: seq<(string, RawModule)>,
                             parent: ModuleMetadata, nameOf: FunctionMetadata -> string,
                             enumerate: Groups -> seq<string>)
    requires subs <= SubModulesOf(parent)
    ensures var r := SubModuleDocs(options, namespace, subs, parent, nameOf, enumerate);
      r.Success? <==> forall j :: 0 <= j < |subs| ==> EntryOutcome(options, namespace, subs[j], nameOf, enumerate).Success?
    ensures var r := SubModuleDocs(options, namespace, subs, parent, nameOf, enumerate);
      r.Success? ==> (
        && |r.value| == |subs|
        && forall j :: 0 <= j < |subs| ==> r.value[j] == EntryOutcome(options, namespace, subs[j], nameOf, enumerate).value)
  {
    SubModuleDocsIsBuildAll(options, namespace, subs, parent, nameOf, enumerate);
    BuildAllSpec(subs, EntryOutcomes(options, namespace, nameOf, enumerate));
  }

  /** Every documented sub-module sits under `namespace/key` and is named by its key. */
  lemma SubModuleNamespaces(options: Export.Options, namespace: string, subs: seq<(string, RawModule)>,
                            parent: ModuleMetadata, nameOf: FunctionMetadata -> string,
                            enumerate: Groups -> seq<string>)
    requires subs <= SubModulesOf(parent)
    requires SubModuleDocs(options, namespace, subs, parent, nameOf, enumerate).Success?
    ensures var docs := SubModuleDocs(options, namespace, subs, parent, nameOf, enumerate).value;
      && |docs| == |subs|
      && forall j :: 0 <= j < |subs| ==> (
           && subs[j].1.Decoded?
           && docs[j].namespace == namespace + "/" + subs[j].0
           && docs[j].name == subs[j].0)
  {
    SubModuleDocsSucceed(options, namespace, subs, parent, nameOf, enumerate);
  }

  /** A failing sub-module loop reports the error of its first failing entry. */
  lemma SubModuleDocsFirstFailure(options: Export.Options, namespace: string, subs: seq<(string, RawModule)>,
                                  parent: ModuleMetadata, nameOf: FunctionMetadata -> string,
                                  enumerate: Groups -> seq<string>)
    requires subs <= SubModulesOf(parent)
    requires SubModuleDocs(options, namespace, subs, parent, nameOf, enumerate).Failure?
    ensures var e := SubModuleDocs(options, namespace, subs, parent, nameOf, enumerate).error;
      exists j :: (
        && 0 <= j < |subs|
        && EntryOutcome(options, namespace, subs[j], nameOf, enumerate) == Failure(e)
        && forall i :: 0 <= i < j ==> EntryOutcome(options, namespace, subs[i], nameOf, enumerate).Success?)
  {
    SubModuleDocsIsBuildAll(options, namespace, subs, parent, nameOf, enumerate);
    BuildAllSpec(subs, EntryOutcomes(options, namespace, nameOf, enumerate));
  }

  /** What one sub-module entry gives: a decode error, or the child's own documentation. */
  function EntryOutcome(options: Export.Options, namespace: string, entry: (string, RawModule),
                        nameOf: FunctionMetadata -> string, enumerate: Groups -> seq<string>): (r: Result<ModuleDocumentation, AutodocsError>)
    ensures entry.1.Malformed? ==> r == Failure(Metadata(entry.1.reason))
    ensures entry.1.Decoded? && r.Success? ==> r.value.namespace == namespace + "/" + entry.0 && r.value.name == entry.0
  {
    match entry.1
    case Malformed(reason) => Failure(Metadata(reason))
    case Decoded(child) =>
      var r := ModuleDoc(options, Some(namespace + "/" + entry.0), entry.0, child, nameOf, enumerate);
      if r.Success? then
        ModuleDocNames(options, Some(namespace + "/" + entry.0), entry.0, child, nameOf, enumerate);
        r
      else r
  }

  lemma EntryDocOutcome(options: Export.Options, namespace: string, entry: (string, RawModule), parent: ModuleMetadata,
                        nameOf: FunctionMetadata -> string, enumerate: Groups -> seq<string>)
    requires entry in SubModulesOf(parent)
    ensures EntryDoc(options, namespace, entry, parent, nameOf, enumerate) == EntryOutcome(options, namespace, entry, nameOf, enumerate)
  {
  }

  /**
   * A whole level fails exactly when a custom type of it fails or one of
   * its sub-modules does not decode or fails in turn; function groups never
   * make it fail.
   */
  lemma ModuleDocFailures(options: Export.Options, namespace: Option<string>, name: string, metadata: ModuleMetadata,
                          nameOf: FunctionMetadata -> string, enumerate: Groups -> seq<string>)
    ensures var ns := if namespace.Some? then namespace.value else name;
      var types := TypesOf(metadata);
      var subs := SubModulesOf(metadata);
      ModuleDoc(options, namespace, name, metadata, nameOf, enumerate).Success?
      <==> && (forall i :: 0 <= i < |types| ==> NewCustomType(types[i], options).Success?)
           && (forall j :: 0 <= j < |subs| ==> EntryOutcome(options, ns, subs[j], nameOf, enumerate).Success?)
  {
    var ns := if namespace.Some? then namespace.value else name;
    ItemsFailOnlyOnCustomTypes(options, metadata, nameOf, enumerate);
    SubModuleDocsSucceed(options, ns, SubModulesOf(metadata), metadata, nameOf, enumerate);
  }

  /** Dropping every function leaves the outcome of the build unchanged: their errors never abort it. */
  lemma FunctionsNeverAbort(options: Export.Options, namespace: Option<string>, name: string, metadata: ModuleMetadata,
                            nameOf: FunctionMetadata -> string, enumerate: Groups -> seq<string>)
    ensures ModuleDoc(options, namespace, name, metadata, nameOf, enumerate).Success?
        == ModuleDoc(options, namespace, name, metadata.(functions := None), nameOf, enumerate).Success?
  {
    ModuleDocFailures(options, namespace, name, metadata, nameOf, enumerate);
    ModuleDocFailures(options, namespace, name, metadata.(functions := None), nameOf, enumerate);
  }

  /**
   * A module text without comment markers, `# ` lines or fences keeps its
   * lines; an absent one is empty.
   */
  lemma ModuleTextOfPlainDoc(doc: Option<string>)
    requires doc.Some? ==> && !Contains(doc.value, "///") && !Contains(doc.value, "/**") && !Contains(doc.value, "**/")
                           && forall i :: 0 <= i < |Lines(doc.value)| ==> !StartsWith(Lines(doc.value)[i], "```")
    ensures doc.None? ==> ModuleText(doc) == ""
    ensures doc.Some? ==> ModuleText(doc) == Join(Lines(doc.value), "\n")
  {
    if doc.Some? {
      FmtDocCommentsKeepsPlainText(doc.value);
      VisibleLinesWithoutFences(Lines(doc.value));
    }
  }

  /** The module text keeps a subsequence of the lines of the unmarked comment, in order. */
  lemma ModuleTextLines(dc: string)
    ensures ModuleText(Some(dc)) == Join(VisibleLines(Lines(FmtDocComments(dc))), "\n")
    ensures IsSubsequence(VisibleLines(Lines(FmtDocComments(dc))), Lines(FmtDocComments(dc)))
  {
    VisibleLinesSubsequence(Lines(FmtDocComments(dc)));
  }
}
