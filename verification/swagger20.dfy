/** The Swagger 2.0 output document and the two operations on its `paths`
    table: last-write-wins insertion and the final clean-up sweep. */
module Swagger20 {
  import opened Wrappers

  /** A parameter; `location` is serialised as "in", `dataType` as "type".
      `format` None omits the key, Some(None) writes `"format": null`. */
  datatype Parameter = Parameter(
    name: string,
    location: string,
    description: string,
    required: bool,
    dataType: string,
    format: Option<Option<string>>)

  /** A response; `schemaRef` None is serialised as `"schema": null`, and
      Some(ref) as `"schema": {"$ref": ref}`. */
  datatype Response = Response(description: string, schemaRef: Option<string>)

  /** An operation object. `parameters` and `responses` are None once the
      clean-up sweep has deleted the key. */
  datatype Operation = Operation(
    tags: seq<string>,
    summary: string,
    description: string,
    parameters: Option<seq<Parameter>>,
    responses: Option<map<string, Response>>,
    consumes: seq<string>,
    produces: seq<string>)

  /** URL template -> lower-cased HTTP method -> operation. */
  type Paths = map<string, map<string, Operation>>

  datatype Property = Property(dataType: string, description: string, format: Option<string>)

  /** A definition; `required` None is serialised as `"required": null`. */
  datatype Schema = Schema(
    schemaType: string,
    properties: map<string, Property>,
    required: Option<seq<string>>,
    description: string)

  datatype Tag = Tag(name: string, description: string)

  datatype Document = Document(
    swagger: string,
    info: map<string, string>,
    host: string,
    basePath: string,
    schemes: seq<string>,
    paths: Paths,
    definitions: map<string, Schema>,
    tags: seq<Tag>)

  // ---------------------------------------------------------------------
  // Insertion into paths[path][method]
  // ---------------------------------------------------------------------

  function Lookup(paths: Paths, path: string, verb: string): Option<Operation> {
    if path in paths && verb in paths[path] then Some(paths[path][verb]) else None
  }

  /** Sets `paths[path][verb]`, creating the inner table on first use;
      every other (path, method) entry keeps its value. */
  function Insert(paths: Paths, path: string, verb: string, op: Operation): (r: Paths)
    ensures r.Keys == paths.Keys + {path}
    ensures forall p, m :: Lookup(r, p, m) == if p == path && m == verb then Some(op) else Lookup(paths, p, m)
  {
    var inner := if path in paths then paths[path] else map[];
    paths[path := inner[verb := op]]
  }

  /** One pending insertion: an operation bound for (path, method). */
  datatype Entry = Entry(path: string, verb: string, op: Operation)

  predicate WritesTo(e: Entry, path: string, verb: string) {
    e.path == path && e.verb == verb
  }

  /** Performs the insertions in order; no path is ever removed. */
  function InsertAll(paths: Paths, es: seq<Entry>): (r: Paths)
    ensures paths.Keys <= r.Keys
    decreases |es|
  {
    if |es| == 0 then paths
    else
      var last := es[|es| - 1];
      Insert(InsertAll(paths, es[..|es| - 1]), last.path, last.verb, last.op)
  }

  /** Index of the last entry bound for (path, method), if any. */
  function LastWriter(es: seq<Entry>, path: string, verb: string): (r: Option<nat>)
    ensures r.Some? ==> r.value < |es| && WritesTo(es[r.value], path, verb)
    ensures r.Some? ==> forall j :: r.value < j < |es| ==> !WritesTo(es[j], path, verb)
    ensures r.None? ==> forall j :: 0 <= j < |es| ==> !WritesTo(es[j], path, verb)
    decreases |es|
  {
    if |es| == 0 then None
    else if WritesTo(es[|es| - 1], path, verb) then Some(|es| - 1)
    else LastWriter(es[..|es| - 1], path, verb)
  }

  /** Last write wins: after a run of insertions, each (path, method) holds
      the operation of the last entry bound for it, or what it held before
      when no entry was. */
  lemma {:induction false} InsertAllLastWriteWins(paths: Paths, es: seq<Entry>, path: string, verb: string)
    ensures Lookup(InsertAll(paths, es), path, verb) ==
      match LastWriter(es, path, verb)
      case Some(k) => Some(es[k].op)
      case None => Lookup(paths, path, verb)
    decreases |es|
  {
    if |es| > 0 && !WritesTo(es[|es| - 1], path, verb) {
      InsertAllLastWriteWins(paths, es[..|es| - 1], path, verb);
    }
  }

  /** Every entry of a run of insertions leaves its (path, method) set;
      the value is the entry's operation unless a later entry is bound for
      the same (path, method). */
  lemma InsertAllWritten(paths: Paths, es: seq<Entry>, k: int)
    requires 0 <= k < |es|
    ensures Lookup(InsertAll(paths, es), es[k].path, es[k].verb).Some?
    ensures (forall q :: k < q < |es| ==> !WritesTo(es[q], es[k].path, es[k].verb)) ==>
      Lookup(InsertAll(paths, es), es[k].path, es[k].verb) == Some(es[k].op)
  {
    InsertAllLastWriteWins(paths, es, es[k].path, es[k].verb);
    var w := LastWriter(es, es[k].path, es[k].verb);
    assert WritesTo(es[k], es[k].path, es[k].verb);
    assert w.Some? && k <= w.value;
  }

  /** The paths after a run of insertions are the paths there were before
      and the paths of the entries: no other path appears. */
  lemma {:induction false} InsertAllKeys(paths: Paths, es: seq<Entry>, path: string)
    ensures path in InsertAll(paths, es) <==> path in paths || exists k :: 0 <= k < |es| && es[k].path == path
    decreases |es|
  {
    if |es| > 0 {
      var n := |es| - 1;
      var init := es[..n];
      InsertAllKeys(paths, init, path);
      assert forall k :: 0 <= k < n ==> init[k] == es[k];
    }
  }

  /** Inserting a concatenation is inserting one part after the other. */
  lemma {:induction false} InsertAllAppend(paths: Paths, a: seq<Entry>, b: seq<Entry>)
    ensures InsertAll(paths, a + b) == InsertAll(InsertAll(paths, a), b)
    decreases |b|
  {
    if |b| == 0 {
      assert a + b == a;
    } else {
      assert (a + b)[..|a + b| - 1] == a + b[..|b| - 1];
      InsertAllAppend(paths, a, b[..|b| - 1]);
    }
  }

  // ---------------------------------------------------------------------
  // Clean-up sweep
  // ---------------------------------------------------------------------

  /** Neither `parameters` nor `responses` is present and empty. */
  predicate Tidy(op: Operation) {
    && (op.parameters.None? || |op.parameters.value| > 0)
    && (op.responses.None? || |op.responses.value| > 0)
  }

  /** Deletes the `responses` key when it is empty and the `parameters` key
      when it is empty; nothing else in the operation changes. */
  function CleanOperation(op: Operation): (r: Operation)
    ensures Tidy(r)
    ensures r.parameters.Some? ==> r.parameters == op.parameters
    ensures r.responses.Some? ==> r.responses == op.responses
    ensures op.parameters.Some? && |op.parameters.value| > 0 ==> r.parameters == op.parameters
    ensures op.responses.Some? && |op.responses.value| > 0 ==> r.responses == op.responses
    ensures r == op.(parameters := r.parameters, responses := r.responses)
  {
    var op' := if op.responses.Some? && |op.responses.value| == 0 then op.(responses := None) else op;
    if op'.parameters.Some? && |op'.parameters.value| == 0 then op'.(parameters := None) else op'
  }

  /** A tidy operation passes the sweep unchanged, so the sweep is
      idempotent. */
  lemma CleanOperationKeepsTidy(op: Operation)
    requires Tidy(op)
    ensures CleanOperation(op) == op
  {
  }

  /** Applies the sweep to every operation of every path. */
  function Cleanup(paths: Paths): (r: Paths)
    ensures r.Keys == paths.Keys
    ensures forall p :: p in r ==> r[p].Keys == paths[p].Keys
    ensures forall p, m :: Lookup(r, p, m).Some? <==> Lookup(paths, p, m).Some?
    ensures forall p, m :: Lookup(paths, p, m).Some? ==> Lookup(r, p, m) == Some(CleanOperation(Lookup(paths, p, m).value))
    ensures forall p, m :: Lookup(r, p, m).Some? ==> Tidy(Lookup(r, p, m).value)
  {
    map p | p in paths :: map m | m in paths[p] :: CleanOperation(paths[p][m])
  }
}
