/** The records the analyser produces and the index stores (src/types/index.ts). Field
    names follow the source; `type` and `extends` are Dafny keywords, so those fields are
    called `typeText`, `extendsName` and `extendsList`. The optional `defaultValue` of a
    parameter is never set by the analyser and is not modelled. */
module Entities {
  import opened Wrappers

  datatype ParameterInfo = ParameterInfo(
    name: string,
    typeText: string,
    description: string,
    isOptional: bool)

  datatype PropertyInfo = PropertyInfo(
    name: string,
    typeText: string,
    description: string,
    lineNumber: int,
    isOptional: bool,
    isReadonly: bool)

  datatype MethodInfo = MethodInfo(
    name: string,
    parameters: seq<ParameterInfo>,
    returnType: string,
    description: string,
    lineNumber: int,
    isAsync: bool,
    isPrivate: bool,
    isStatic: bool)

  datatype FunctionInfo = FunctionInfo(
    name: string,
    parameters: seq<ParameterInfo>,
    returnType: string,
    description: string,
    lineNumber: int,
    isAsync: bool,
    isExported: bool)

  datatype ClassInfo = ClassInfo(
    name: string,
    methods: seq<MethodInfo>,
    properties: seq<PropertyInfo>,
    description: string,
    lineNumber: int,
    isExported: bool,
    extendsName: Option<string>,
    implementsList: Option<seq<string>>)

  datatype InterfaceInfo = InterfaceInfo(
    name: string,
    properties: seq<PropertyInfo>,
    methods: seq<MethodInfo>,
    description: string,
    lineNumber: int,
    isExported: bool,
    extendsList: Option<seq<string>>)

  datatype TypeInfo = TypeInfo(
    name: string,
    definition: string,
    description: string,
    lineNumber: int,
    isExported: bool)

  datatype CodeFile = CodeFile(
    path: string,
    content: string,
    language: string,
    functions: seq<FunctionInfo>,
    classes: seq<ClassInfo>,
    interfaces: seq<InterfaceInfo>,
    types: seq<TypeInfo>)

  /** Embeddings are IEEE doubles in the source; the model uses exact reals */
  type Vector = seq<real>

  /** `EmbeddingResult`: one indexed chunk with its vector */
  datatype EmbeddingRecord = EmbeddingRecord(
    text: string,
    embedding: Vector,
    file: string,
    lineNumber: int)

  datatype SearchResult = SearchResult(
    text: string,
    file: string,
    lineNumber: int,
    similarity: real,
    context: string)
}
