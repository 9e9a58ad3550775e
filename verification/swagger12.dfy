/** The Swagger 1.2 input: the root resource listing and the per-controller
    API declarations the converter reads. Keys the converter reads with
    `d[key]` are plain fields; keys it reads with `d.get(key, default)`, or
    whose value may be null, are `Option`s (None for absent or null; a
    parameter's `format` is the one key that keeps the two apart). Lists
    read with `.get(key, [])` are sequences, where an absent list is empty. */
module Swagger12 {
  import opened Wrappers

  /** Python truthiness of an optional string: null and "" are false. */
  predicate Truthy(v: Option<string>) {
    v.Some? && v.value != ""
  }

  /** One operation parameter; `dataType` is the JSON key "type". The
      converter tests `format` for presence of the key, not for its value,
      so `format` tells the three cases apart: None when the key is absent,
      Some(None) when it is null, Some(Some(v)) when it holds `v`. */
  datatype Parameter = Parameter(
    name: string,
    paramType: string,
    required: bool,
    description: Option<string>,
    dataType: Option<string>,
    format: Option<Option<string>>)

  datatype ResponseMessage = ResponseMessage(
    code: int,
    message: Option<string>,
    responseModel: Option<string>)

  datatype Operation = Operation(
    httpMethod: string,
    summary: string,
    notes: string,
    parameters: seq<Parameter>,
    responseMessages: seq<ResponseMessage>,
    consumes: seq<string>,
    produces: seq<string>)

  /** One endpoint of a declaration: a URL template and its operations. */
  datatype Api = Api(path: string, operations: seq<Operation>)

  /** An API declaration, fetched per controller. */
  datatype Declaration = Declaration(apis: seq<Api>)

  /** One entry of the listing's `apis`: a controller reference. */
  datatype ApiRef = ApiRef(path: string, description: string)

  /** A model property; `propType` is the JSON key "type", and an absent
      `required` flag reads as false. */
  datatype PropertyDef = PropertyDef(
    propType: string,
    format: Option<string>,
    required: bool,
    description: Option<string>)

  /** A model; `properties` keeps the JSON object's key order. */
  datatype ModelDef = ModelDef(
    properties: seq<(string, PropertyDef)>,
    description: Option<string>)

  /** The root resource listing; an absent `models` object is empty. */
  datatype Listing = Listing(
    info: map<string, string>,
    apiVersion: Option<string>,
    apis: seq<ApiRef>,
    models: map<string, ModelDef>)
}
