/**
 * The `POST` handler of src/app/api/analyze/route.ts as one function over
 * its inputs. The request body, the PDF library, the model call and
 * `JSON.parse` are parameters: the handler's own logic is the validation
 * branch, the order of the steps, the cleaning of the reply and the
 * mapping of a caught error to a response.
 *
 * Besides the response, the handler reports the external calls it made, in
 * order, so that "nothing downstream runs" can be stated.
 */
module AnalyzeRoute {
  import opened Wrappers
  import opened PdfText
  import opened ReplyCleaning
  import opened ErrorMapping
  import opened AnalysisTypes
  import opened Prompt

  newtype byte = x: int | 0 <= x < 256

  /** A multipart form value: an uploaded file or a text field. */
  datatype FormEntry = FileEntry(bytes: seq<byte>) | TextEntry(text: string)

  /** The form's entries in the order they were submitted. */
  type Form = seq<(string, FormEntry)>

  /** `FormData.prototype.get`: the first entry with that name, or null. */
  function FormGet(form: Form, name: string): (r: Option<FormEntry>)
    ensures r.Some? <==> exists i :: 0 <= i < |form| && form[i].0 == name
    ensures r.Some? ==> exists i :: 0 <= i < |form| && form[i] == (name, r.value)
                          && forall j :: 0 <= j < i ==> form[j].0 != name
  {
    if |form| == 0 then None
    else if form[0].0 == name then Some(form[0].1)
    else
      var r := FormGet(form[1..], name);
      assert forall i :: 0 <= i < |form| - 1 ==> form[1..][i] == form[i + 1];
      r
  }

  /** JavaScript truthiness of a form value: null and the empty string are falsy, a file never is. */
  predicate Truthy(v: Option<FormEntry>)
  {
    v.Some? && (v.value.FileEntry? || v.value.text != "")
  }

  /** What a template literal makes of a form value (`String(file)` for a file). */
  function TemplateString(v: FormEntry): string
  {
    match v
    case TextEntry(t) => t
    case FileEntry(_) => "[object File]"
  }

  /** A text value sent as `resume` passes the check and then has no `arrayBuffer` method. */
  const NotAFile: Thrown := Thrown(None, Some("file.arrayBuffer is not a function"))

  const MissingFields: string := "Missing resume or JD"

  datatype Body = JsonBody(value: Json) | ErrorBody(error: string)

  datatype Response = Response(status: int, body: Body)

  /** The external calls the handler makes, with their arguments. */
  datatype Call = Extract(pdf: seq<byte>) | Generate(prompt: string) | Parse(text: string)

  datatype Run = Run(response: Response, calls: seq<Call>)

  const MissingFieldsResponse: Response := Response(400, ErrorBody(MissingFields))

  /** The response of the catch block for a caught error. */
  function Failed(e: Thrown): Response
  {
    Response(ErrorStatus(e), ErrorBody(ErrorText(e)))
  }

  /**
   * One request. `request` is the outcome of reading the form, `extract` the
   * PDF library (pages of text items, or what it throws), `generate` the
   * model call on the prompt (its reply text, or what it throws), `parse`
   * `JSON.parse` (a value, or the message of its syntax error).
   */
  function Handle(request: Result<Form, Thrown>,
                  extract: seq<byte> -> Result<seq<seq<string>>, Thrown>,
                  generate: string -> Result<string, Thrown>,
                  parse: string -> Result<Json, string>): Run
  {
    match request
    case Failure(e) => Run(Failed(e), [])
    case Success(form) =>
      var file, jd := FormGet(form, "resume"), FormGet(form, "jd_text");
      if !Truthy(file) || !Truthy(jd) then Run(MissingFieldsResponse, [])
      else
        match file.value
        case TextEntry(_) => Run(Failed(NotAFile), [])
        case FileEntry(bytes) =>
          match extract(bytes)
          case Failure(e) => Run(Failed(e), [Extract(bytes)])
          case Success(pages) =>
            var prompt := BuildPrompt(TemplateString(jd.value), ExtractedText(pages));
            match generate(prompt)
            case Failure(e) => Run(Failed(e), [Extract(bytes), Generate(prompt)])
            case Success(reply) =>
              var cleaned := Clean(reply);
              var calls := [Extract(bytes), Generate(prompt), Parse(cleaned)];
              match parse(cleaned)
              case Failure(msg) => Run(Failed(Thrown(None, Some(msg))), calls)
              case Success(value) => Run(Response(200, JsonBody(value)), calls)
  }

  /** The form passes the check: both fields present, neither an empty string. */
  predicate FieldsPresent(form: Form)
  {
    Truthy(FormGet(form, "resume")) && Truthy(FormGet(form, "jd_text"))
  }

  /** The prompt built from a form and the pages extracted from its file. */
  function PromptFor(form: Form, pages: seq<seq<string>>): string
    requires FieldsPresent(form)
  {
    BuildPrompt(TemplateString(FormGet(form, "jd_text").value), ExtractedText(pages))
  }

  // ---------------------------------------------------------------------
  // Validation

  /**
   * The 400 response comes out exactly when a field is missing or empty, and
   * then nothing else runs: no call is made and the other inputs do not matter.
   */
  lemma ValidationRejects(form: Form,
                          extract: seq<byte> -> Result<seq<seq<string>>, Thrown>,
                          generate: string -> Result<string, Thrown>,
                          parse: string -> Result<Json, string>,
                          extract': seq<byte> -> Result<seq<seq<string>>, Thrown>,
                          generate': string -> Result<string, Thrown>,
                          parse': string -> Result<Json, string>)
    ensures var run := Handle(Success(form), extract, generate, parse);
      && (run.response == MissingFieldsResponse <==> !FieldsPresent(form))
      && (!FieldsPresent(form) ==>
            (run.calls == [] && run == Handle(Success(form), extract', generate', parse')))
  {
  }

  /** A body the form reader rejects is reported through the catch block. */
  lemma UnreadableForm(e: Thrown,
                       extract: seq<byte> -> Result<seq<seq<string>>, Thrown>,
                       generate: string -> Result<string, Thrown>,
                       parse: string -> Result<Json, string>)
    ensures Handle(Failure(e), extract, generate, parse) == Run(Failed(e), [])
  {
  }

  /** A non-empty text value under `resume` is not caught by the check but fails on use. */
  lemma ResumeNotAFile(form: Form,
                       extract: seq<byte> -> Result<seq<seq<string>>, Thrown>,
                       generate: string -> Result<string, Thrown>,
                       parse: string -> Result<Json, string>)
    requires FieldsPresent(form) && FormGet(form, "resume").value.TextEntry?
    ensures Handle(Success(form), extract, generate, parse)
         == Run(Response(500, ErrorBody(FailurePrefix + "file.arrayBuffer is not a function")), [])
  {
  }

  // ---------------------------------------------------------------------
  // The processing steps

  /** A failing extraction stops the request before the model is called. */
  lemma ExtractionFailure(form: Form, bytes: seq<byte>, e: Thrown,
                          extract: seq<byte> -> Result<seq<seq<string>>, Thrown>,
                          generate: string -> Result<string, Thrown>,
                          parse: string -> Result<Json, string>)
    requires FieldsPresent(form) && FormGet(form, "resume") == Some(FileEntry(bytes))
    requires extract(bytes) == Failure(e)
    ensures Handle(Success(form), extract, generate, parse) == Run(Failed(e), [Extract(bytes)])
  {
  }

  /**
   * The model is called once, on the prompt that embeds the job description
   * and the extracted text; its error is reported with its own truthy status.
   */
  lemma ProviderFailure(form: Form, bytes: seq<byte>, pages: seq<seq<string>>, e: Thrown,
                        extract: seq<byte> -> Result<seq<seq<string>>, Thrown>,
                        generate: string -> Result<string, Thrown>,
                        parse: string -> Result<Json, string>)
    requires FieldsPresent(form) && FormGet(form, "resume") == Some(FileEntry(bytes))
    requires extract(bytes) == Success(pages)
    requires generate(PromptFor(form, pages)) == Failure(e)
    ensures var run := Handle(Success(form), extract, generate, parse);
      && run.calls == [Extract(bytes), Generate(PromptFor(form, pages))]
      && run.response.body == ErrorBody(ErrorText(e))
      && (StatusTruthy(e.status) ==> run.response.status == e.status.value)
      && (!StatusTruthy(e.status) ==> run.response.status == 500)
  {
  }

  /** A cleaned reply that is not JSON gives status 500: a syntax error carries no status. */
  lemma ParseFailure(form: Form, bytes: seq<byte>, pages: seq<seq<string>>, reply: string, msg: string,
                     extract: seq<byte> -> Result<seq<seq<string>>, Thrown>,
                     generate: string -> Result<string, Thrown>,
                     parse: string -> Result<Json, string>)
    requires FieldsPresent(form) && FormGet(form, "resume") == Some(FileEntry(bytes))
    requires extract(bytes) == Success(pages)
    requires generate(PromptFor(form, pages)) == Success(reply)
    requires parse(Clean(reply)) == Failure(msg)
    ensures var run := Handle(Success(form), extract, generate, parse);
      && run.calls == [Extract(bytes), Generate(PromptFor(form, pages)), Parse(Clean(reply))]
      && run.response.status == 500
      && run.response.body == ErrorBody(FailurePrefix + (if msg == "" then UnknownError else msg))
  {
  }

  /**
   * On success the body is exactly what the parser returned for the cleaned
   * reply: no check of the score range or the verdict literal.
   */
  lemma SuccessForwardsParsedValue(form: Form, bytes: seq<byte>, pages: seq<seq<string>>,
                                   reply: string, value: Json,
                                   extract: seq<byte> -> Result<seq<seq<string>>, Thrown>,
                                   generate: string -> Result<string, Thrown>,
                                   parse: string -> Result<Json, string>)
    requires FieldsPresent(form) && FormGet(form, "resume") == Some(FileEntry(bytes))
    requires extract(bytes) == Success(pages)
    requires generate(PromptFor(form, pages)) == Success(reply)
    requires parse(Clean(reply)) == Success(value)
    ensures Handle(Success(form), extract, generate, parse)
         == Run(Response(200, JsonBody(value)),
                [Extract(bytes), Generate(PromptFor(form, pages)), Parse(Clean(reply))])
  {
  }

  /** Whatever the inputs, a JSON body is only ever the parser's result after all three calls. */
  lemma JsonBodyOnlyAfterAllSteps(request: Result<Form, Thrown>,
                                  extract: seq<byte> -> Result<seq<seq<string>>, Thrown>,
                                  generate: string -> Result<string, Thrown>,
                                  parse: string -> Result<Json, string>)
    ensures var run := Handle(request, extract, generate, parse);
      run.response.body.JsonBody? ==>
        && |run.calls| == 3
        && run.response.status == 200
        && parse(run.calls[2].text) == Success(run.response.body.value)
        && generate(run.calls[1].prompt).Success?
        && run.calls[2].text == Clean(generate(run.calls[1].prompt).value)
        && extract(run.calls[0].pdf).Success?
  {
  }

  /** A reply whose score is out of range and whose verdict is not a listed literal is still returned with 200. */
  lemma UncheckedReplyForwarded(form: Form, bytes: seq<byte>, pages: seq<seq<string>>,
                                reply: string, value: Json,
                                extract: seq<byte> -> Result<seq<seq<string>>, Thrown>,
                                generate: string -> Result<string, Thrown>,
                                parse: string -> Result<Json, string>)
    requires value == JObject([("score", JNumber(150.0)), ("verdict", JString("Perfect Match"))])
    requires FieldsPresent(form) && FormGet(form, "resume") == Some(FileEntry(bytes))
    requires extract(bytes) == Success(pages)
    requires generate(PromptFor(form, pages)) == Success(reply)
    requires parse(Clean(reply)) == Success(value)
    ensures !ScoreInRange(value) && !ConformsToAnalysisResponse(value)
    ensures Handle(Success(form), extract, generate, parse).response == Response(200, JsonBody(value))
  {
  }
}
