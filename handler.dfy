/**
 * The `POST /get-resources` handler (server.js lines 23-106): build the filter
 * formula, read the matching rows from the store, project them, ask the model,
 * sanitize and parse its reply, respond.
 *
 * The Airtable query and `JSON.parse` are function parameters, the model's reply
 * an input that is `None` when the call throws; only what the handler does with
 * their results is modelled.
 */
module ResourcesHandler {
  import opened Wrappers
  import FormulaBuilder
  import FenceSanitizer

  /** A value `JSON.parse` can return; numbers are kept as their literal text. */
  datatype Json =
    | Null
    | Bool(b: bool)
    | Number(literal: string)
    | Str(s: string)
    | Array(elements: seq<Json>)
    | Object(members: seq<(string, Json)>)

  /** A row as the store client returns it: more than the handler forwards. */
  datatype StoreRecord = StoreRecord(id: string, fields: map<string, Json>, createdTime: string)

  /** A row as the handler forwards it: `{ id, fields }`. */
  datatype Resource = Resource(id: string, fields: map<string, Json>)

  /** The JSON body of the response; an absent property is `None`. */
  datatype Body = Body(
    success: bool,
    resources: Option<seq<Resource>>,
    aiGeneratedResources: Option<Json>,
    error: Option<string>)

  datatype Response = Response(status: nat, body: Body)

  const RetrieveError := "Failed to retrieve resources."
  const GenerateError := "Failed to generate AI-generated response as JSON"

  /** `res.status(500).json({ success: false, error: message })`. */
  function Failure(message: string): (resp: Response)
    ensures message == RetrieveError || message == GenerateError ==> WellFormed(resp)
  {
    Response(500, Body(false, None, None, Some(message)))
  }

  /** `records.map(record => ({ id: record.id, fields: record.fields }))`. */
  function Project(records: seq<StoreRecord>): (resources: seq<Resource>)
    ensures |resources| == |records|
    ensures forall i :: 0 <= i < |records| ==>
      resources[i].id == records[i].id && resources[i].fields == records[i].fields
  {
    if records == [] then [] else [Resource(records[0].id, records[0].fields)] + Project(records[1..])
  }

  /** The two shapes a response can take: 200 with rows and parsed reply, or 500 with one
      of the two messages and nothing else. */
  predicate WellFormed(resp: Response)
  {
    (resp.status == 200 <==> resp.body.success) &&
    (resp.body.success ==>
      resp.body.resources.Some? && resp.body.aiGeneratedResources.Some? && resp.body.error.None?) &&
    (!resp.body.success ==>
      resp.status == 500 && resp.body.resources.None? && resp.body.aiGeneratedResources.None? &&
      resp.body.error in {Some(RetrieveError), Some(GenerateError)})
  }

  /**
   * The handler. `query` stands for the store read of `Technical tools` filtered by a
   * formula (`None`: it threw), `reply` for the model's text (`None`: the call or
   * `text()` threw), `parse` for `JSON.parse` (`None`: it threw).
   */
  method GetResources(
    sectors: FormulaBuilder.SectorsField,
    query: string -> Option<seq<StoreRecord>>,
    reply: Option<string>,
    parse: string -> Option<Json>)
    returns (resp: Response)
    ensures WellFormed(resp)
    // the builder or the store throws: caught by the outer handler
    ensures FormulaBuilder.FilterFormula(sectors).Thrown? ==> resp == Failure(RetrieveError)
    ensures var formula := FormulaBuilder.FilterFormula(sectors);
      formula.Ok? && query(formula.value).None? ==> resp == Failure(RetrieveError)
    // the model call or the parse throws: caught by the inner handler, rows discarded
    ensures var formula := FormulaBuilder.FilterFormula(sectors);
      formula.Ok? && query(formula.value).Some? &&
      (reply.None? || parse(FenceSanitizer.Sanitize(reply.value)).None?) ==>
      resp == Failure(GenerateError)
    // success: every row projected in order, and the parsed sanitized reply
    ensures var formula := FormulaBuilder.FilterFormula(sectors);
      resp.status == 200 <==>
      formula.Ok? && query(formula.value).Some? &&
      reply.Some? && parse(FenceSanitizer.Sanitize(reply.value)).Some?
    ensures var formula := FormulaBuilder.FilterFormula(sectors);
      resp.status == 200 ==>
      resp.body.resources == Some(Project(query(formula.value).value)) &&
      resp.body.aiGeneratedResources == parse(FenceSanitizer.Sanitize(reply.value))
  {
    var formula := FormulaBuilder.BuildFilterFormula(sectors);
    if formula.Thrown? {
      return Failure(RetrieveError);
    }
    var records := query(formula.value);
    if records.None? {
      return Failure(RetrieveError);
    }
    var resources := Project(records.value);

    var aiGeneratedResources: Option<Json> := None;
    if reply.None? {
      return Failure(GenerateError);
    }
    var sanitizedText := FenceSanitizer.Sanitize(reply.value);
    aiGeneratedResources := parse(sanitizedText);
    if aiGeneratedResources.None? {
      return Failure(GenerateError);
    }

    resp := Response(200, Body(true, Some(resources), aiGeneratedResources, None));
  }
}
