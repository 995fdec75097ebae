/** The documentation record of one Starlark file as the pages read it: the
    fields of the normalised protobuf `ModuleInfo` message that the renderer
    and the navigation use. A missing list reads as the empty list and a
    missing string as the empty string, which is how the pages test them
    (`list && list.length > 0`, `str && ...`). */
module DocInfo {

  /** A function parameter, rule attribute or provider field: the pages show
      only its name and its docString. */
  datatype DocRow = DocRow(name: string, docString: string)

  datatype FunctionInfo = FunctionInfo(functionName: string, docString: string, parameter: seq<DocRow>)

  datatype RuleInfo = RuleInfo(ruleName: string, docString: string, attribute: seq<DocRow>)

  datatype ProviderInfo = ProviderInfo(providerName: string, docString: string, fieldInfo: seq<DocRow>)

  datatype AspectInfo = AspectInfo(aspectName: string, docString: string)

  datatype ModuleInfo = ModuleInfo(
    file: string,
    moduleDocstring: string,
    funcInfo: seq<FunctionInfo>,
    ruleInfo: seq<RuleInfo>,
    providerInfo: seq<ProviderInfo>,
    aspectInfo: seq<AspectInfo>)
}
