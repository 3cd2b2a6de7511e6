/**
 * The metadata records the scripting engine hands over (already decoded
 * from its JSON) and the error values the pipeline reports.
 */
module Records {
  import opened Wrappers

  /** One registered function: its name, parameters and doc comment lines. */
  datatype FunctionMetadata = FunctionMetadata(
    name: string,
    namespace: string,
    numParams: nat,
    params: Option<seq<map<string, string>>>,
    returnType: Option<string>,
    docComments: Option<seq<string>>)

  /** A type registered under a display name. */
  datatype CustomTypesMetadata = CustomTypesMetadata(
    typeName: string,
    displayName: string,
    docComments: Option<seq<string>>)

  /**
   * One module level.  Sub-modules arrive as raw JSON values in declaration
   * order; decoding one of them may fail, which `Malformed` stands for.
   */
  datatype ModuleMetadata = ModuleMetadata(
    doc: Option<string>,
    functions: Option<seq<FunctionMetadata>>,
    customTypes: Option<seq<CustomTypesMetadata>>,
    modules: SubModules)

  /**
   * The optional `modules` field: absent, or the entries of the JSON
   * object in iteration order, each key with its raw value.
   */
  datatype SubModules = Absent | Listed(entries: seq<(string, RawModule)>)

  datatype RawModule = Decoded(metadata: ModuleMetadata) | Malformed(reason: string)

  /** The crate's error enum. */
  datatype AutodocsError = PreProcessing(message: string) | Metadata(message: string)

  /** What a call can end in besides a value: a returned error or a panic. */
  datatype Fault = Raised(error: AutodocsError) | Panic(message: string)
}
