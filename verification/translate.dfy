/** The per-item translation rules: parameters, response messages,
    operations, model properties and models (SwaggerConvert.py lines
    77-138). */
module Translate {
  import opened Wrappers
  import opened Text
  import opened Decimal
  import Table
  import S12 = Swagger12
  import S20 = Swagger20

  const DefaultParamType := "string"
  const NoDescription := "No description"
  const DefinitionsPrefix := "#/definitions/"

  // ---------------------------------------------------------------------
  // Parameters
  // ---------------------------------------------------------------------

  /** `paramType` becomes `in`, `required` is copied as is, a missing
      description reads as "", a missing type as "string", the type is
      lower-cased, and `format` is carried exactly when the key is present,
      null included. */
  function TranslateParameter(p: S12.Parameter): (r: S20.Parameter)
    ensures r.name == p.name && r.location == p.paramType && r.required == p.required
    ensures r.description == (if p.description.Some? then p.description.value else "")
    ensures r.dataType == ToLower(if p.dataType.Some? then p.dataType.value else "string")
    ensures IsLowerAscii(r.dataType)
    ensures p.dataType.None? ==> r.dataType == "string"
    ensures p.dataType.Some? && IsLowerAscii(p.dataType.value) ==> r.dataType == p.dataType.value
    ensures r.format.Some? <==> p.format.Some?
    ensures r.format == p.format
  {
    var t := ToLower(p.dataType.GetOr(DefaultParamType));
    ToLowerFixesLower(DefaultParamType);
    ToLowerFixesLower(p.dataType.GetOr(DefaultParamType));
    S20.Parameter(p.name, p.paramType, p.description.GetOr(""), p.required, t, p.format)
  }

  /** Translates the parameters one by one, keeping their order. */
  function TranslateParameters(ps: seq<S12.Parameter>): (r: seq<S20.Parameter>)
    ensures |r| == |ps|
    ensures forall i :: 0 <= i < |ps| ==> r[i] == TranslateParameter(ps[i])
  {
    seq(|ps|, i requires 0 <= i < |ps| => TranslateParameter(ps[i]))
  }

  // ---------------------------------------------------------------------
  // Response messages
  // ---------------------------------------------------------------------

  /** The description is the message, or "No description" when the message
      is null or empty; the schema references the response model when it
      names one and is null otherwise. */
  function TranslateResponse(m: S12.ResponseMessage): (r: S20.Response)
    ensures r.description != ""
    ensures S12.Truthy(m.message) ==> r.description == m.message.value
    ensures !S12.Truthy(m.message) ==> r.description == "No description"
    ensures r.schemaRef.Some? <==> S12.Truthy(m.responseModel)
    ensures r.schemaRef.Some? ==> r.schemaRef.value == "#/definitions/" + m.responseModel.value
  {
    var description := if S12.Truthy(m.message) then m.message.value else NoDescription;
    var schemaRef := if S12.Truthy(m.responseModel) then Some(DefinitionsPrefix + m.responseModel.value) else None;
    S20.Response(description, schemaRef)
  }

  /** No later message in `ms` carries the same code as `ms[i]`. */
  predicate LastWithCode(ms: seq<S12.ResponseMessage>, i: int)
    requires 0 <= i < |ms|
  {
    forall j :: i < j < |ms| ==> ms[j].code != ms[i].code
  }

  /** The assignments the response loop performs, in message order: the
      decimal form of the code, bound to the translated message. */
  function ResponseAssignments(ms: seq<S12.ResponseMessage>): (r: seq<(string, S20.Response)>)
    ensures |r| == |ms|
    ensures forall i :: 0 <= i < |ms| ==> r[i] == (IntToDecimal(ms[i].code), TranslateResponse(ms[i]))
  {
    seq(|ms|, i requires 0 <= i < |ms| => (IntToDecimal(ms[i].code), TranslateResponse(ms[i])))
  }

  /** Keys the responses by the decimal form of their codes: at most one
      response per message, and none exactly when there is no message. */
  function TranslateResponses(ms: seq<S12.ResponseMessage>): (r: map<string, S20.Response>)
    ensures |r| <= |ms|
    ensures |r| == 0 <==> |ms| == 0
  {
    Table.Assign(ResponseAssignments(ms))
  }

  /** The response keys are exactly the codes of the messages. */
  lemma TranslateResponsesKeys(ms: seq<S12.ResponseMessage>, key: string)
    ensures key in TranslateResponses(ms) <==> exists i :: 0 <= i < |ms| && IntToDecimal(ms[i].code) == key
  {
    Table.AssignKeys(ResponseAssignments(ms), key);
  }

  /** Each code's entry is the translation of the last message carrying that
      code: a later duplicate overwrites an earlier one. */
  lemma TranslateResponsesLastWins(ms: seq<S12.ResponseMessage>, i: int)
    requires 0 <= i < |ms| && LastWithCode(ms, i)
    ensures IntToDecimal(ms[i].code) in TranslateResponses(ms)
    ensures TranslateResponses(ms)[IntToDecimal(ms[i].code)] == TranslateResponse(ms[i])
  {
    var kvs := ResponseAssignments(ms);
    assert Table.LastWithKey(kvs, i) by {
      forall j | i < j < |kvs| ensures kvs[j].0 != kvs[i].0 {
        DecimalInjective(ms[j].code, ms[i].code);
      }
    }
    Table.AssignLastWins(kvs, i);
  }

  // ---------------------------------------------------------------------
  // Operations
  // ---------------------------------------------------------------------

  /** Builds the operation object: tagged with its controller's tag alone,
      summary and notes carried, parameters and responses translated, and
      the content types copied verbatim. */
  function TranslateOperation(op: S12.Operation, tag: string): (r: S20.Operation)
    ensures r.tags == [tag]
    ensures r.summary == op.summary && r.description == op.notes
    ensures r.consumes == op.consumes && r.produces == op.produces
    ensures r.parameters.Some? && |r.parameters.value| == |op.parameters|
    ensures forall i :: 0 <= i < |op.parameters| ==> r.parameters.value[i] == TranslateParameter(op.parameters[i])
    ensures r.responses.Some? && (|r.responses.value| == 0 <==> |op.responseMessages| == 0)
    ensures r.responses.value == TranslateResponses(op.responseMessages)
  {
    S20.Operation([tag], op.summary, op.notes, Some(TranslateParameters(op.parameters)),
      Some(TranslateResponses(op.responseMessages)), op.consumes, op.produces)
  }

  // ---------------------------------------------------------------------
  // Model definitions
  // ---------------------------------------------------------------------

  /** The type is lower-cased, a missing description reads as "", and
      `format` is carried only when it is a non-empty string. */
  function TranslateProperty(d: S12.PropertyDef): (r: S20.Property)
    ensures r.dataType == ToLower(d.propType)
    ensures IsLowerAscii(r.dataType) && |r.dataType| == |d.propType|
    ensures IsLowerAscii(d.propType) ==> r.dataType == d.propType
    ensures r.description == (if d.description.Some? then d.description.value else "")
    ensures r.format.Some? <==> S12.Truthy(d.format)
    ensures r.format.Some? ==> r.format == d.format
  {
    ToLowerFixesLower(d.propType);
    var format := if S12.Truthy(d.format) then d.format else None;
    S20.Property(ToLower(d.propType), d.description.GetOr(""), format)
  }

  /** The names of the properties flagged required, in property order. */
  function RequiredNames(props: seq<(string, S12.PropertyDef)>): (r: seq<string>)
    ensures |r| <= |props|
    ensures forall n :: n in r <==> exists i :: 0 <= i < |props| && props[i].0 == n && props[i].1.required
    ensures forall i :: 0 <= i < |props| && props[i].1.required ==> props[i].0 in r
    decreases |props|
  {
    if |props| == 0 then []
    else
      var init := props[..|props| - 1];
      var last := props[|props| - 1];
      assert forall i :: 0 <= i < |init| ==> init[i] == props[i];
      RequiredNames(init) + (if last.1.required then [last.0] else [])
  }

  /** Requiredness is decided property by property, so the required list of
      a concatenation is the concatenation of the required lists: the order
      of the properties is the order of the list. */
  lemma {:induction false} RequiredNamesAppend(a: seq<(string, S12.PropertyDef)>, b: seq<(string, S12.PropertyDef)>)
    ensures RequiredNames(a + b) == RequiredNames(a) + RequiredNames(b)
    decreases |b|
  {
    if |b| == 0 {
      assert a + b == a;
    } else {
      assert (a + b)[..|a + b| - 1] == a + b[..|b| - 1];
      RequiredNamesAppend(a, b[..|b| - 1]);
    }
  }

  /** No later pair in `props` has the same name as `props[i]`. */
  predicate LastWithName(props: seq<(string, S12.PropertyDef)>, i: int)
    requires 0 <= i < |props|
  {
    forall j :: i < j < |props| ==> props[j].0 != props[i].0
  }

  /** The assignments the property loop performs, in property order. */
  function PropertyAssignments(props: seq<(string, S12.PropertyDef)>): (r: seq<(string, S20.Property)>)
    ensures |r| == |props|
    ensures forall i :: 0 <= i < |props| ==> r[i] == (props[i].0, TranslateProperty(props[i].1))
  {
    seq(|props|, i requires 0 <= i < |props| => (props[i].0, TranslateProperty(props[i].1)))
  }

  /** Translates every property into a table keyed by property name: at
      most one entry per property, and none exactly when there is none. */
  function TranslateProperties(props: seq<(string, S12.PropertyDef)>): (r: map<string, S20.Property>)
    ensures |r| <= |props|
    ensures |r| == 0 <==> |props| == 0
  {
    Table.Assign(PropertyAssignments(props))
  }

  /** The property table has exactly the property names as keys. */
  lemma TranslatePropertiesKeys(props: seq<(string, S12.PropertyDef)>, name: string)
    ensures name in TranslateProperties(props) <==> exists i :: 0 <= i < |props| && props[i].0 == name
  {
    Table.AssignKeys(PropertyAssignments(props), name);
  }

  /** Each property's entry is the translation of its (last) definition. */
  lemma TranslatePropertiesLastWins(props: seq<(string, S12.PropertyDef)>, i: int)
    requires 0 <= i < |props| && LastWithName(props, i)
    ensures props[i].0 in TranslateProperties(props)
    ensures TranslateProperties(props)[props[i].0] == TranslateProperty(props[i].1)
  {
    var kvs := PropertyAssignments(props);
    assert Table.LastWithKey(kvs, i);
    Table.AssignLastWins(kvs, i);
  }

  /** A model becomes an object schema. Its `required` list names exactly
      the flagged properties and is null, not empty, when none is flagged;
      a missing model description reads as "". */
  function TranslateModel(d: S12.ModelDef): (r: S20.Schema)
    ensures r.schemaType == "object"
    ensures r.properties == TranslateProperties(d.properties)
    ensures r.required.None? <==> forall i :: 0 <= i < |d.properties| ==> !d.properties[i].1.required
    ensures r.required.Some? ==> |r.required.value| > 0 && r.required.value == RequiredNames(d.properties)
    ensures r.description == (if d.description.Some? then d.description.value else "")
  {
    var required := RequiredNames(d.properties);
    assert |required| > 0 ==> required[0] in required;
    S20.Schema("object", TranslateProperties(d.properties),
      if |required| > 0 then Some(required) else None, d.description.GetOr(""))
  }

  /** Translates every model of the listing under its own name. */
  function TranslateModels(models: map<string, S12.ModelDef>): (r: map<string, S20.Schema>)
    ensures r.Keys == models.Keys
    ensures forall n :: n in models ==> r[n] == TranslateModel(models[n])
  {
    map n | n in models :: TranslateModel(models[n])
  }
}
