/**
 * `scrape_images_api`, the POST /scrape_images handler: the parameter gate in
 * front of the pipeline and the mapping of its outcome to a response.
 */
module Api {
  import opened Wrappers

  /** A decoded JSON value, as `request.json` yields it (only integral numbers). */
  datatype Json =
    | JNull
    | JBool(b: bool)
    | JInt(i: int)
    | JString(s: string)
    | JArray(items: seq<Json>)
    | JObject(fields: map<string, Json>)

  /** Python truthiness of a decoded value: None, False, 0, "", [] and {} are false. */
  predicate Truthy(v: Json) {
    match v
    case JNull => false
    case JBool(b) => b
    case JInt(i) => i != 0
    case JString(s) => |s| > 0
    case JArray(items) => |items| > 0
    case JObject(fields) => |fields| > 0
  }

  /** `data.get(key)`: None for a missing key. */
  function Get(fields: map<string, Json>, key: string): Json {
    if key in fields then fields[key] else JNull
  }

  const MissingParameters := "Country and region are required parameters"
  const Completed := "Scraping completed successfully"

  /** A JSON body from `jsonify`, or the framework's own page for an exception the handler lets escape. */
  datatype Body = JsonBody(value: Json) | ServerErrorPage

  datatype Response = Response(status: nat, body: Body)

  function JsonResponse(status: nat, key: string, text: string): Response {
    Response(status, JsonBody(JObject(map[key := JString(text)])))
  }

  /** The response, and the arguments `scrape_images` was called with, if it was called. */
  datatype Handled = Handled(response: Response, scraped: Option<(Json, Json)>)

  /**
   * The handler. `scrape` stands for a run of the pipeline on the two
   * request values: Pass, or Fail with the text of the exception it raised.
   * A body that is not a JSON object makes `data.get` raise outside the
   * handler's `try`, which the framework answers with status 500.
   */
  function ScrapeImagesApi(data: Json, scrape: (Json, Json) -> Outcome<string>): (h: Handled)
    ensures h.scraped.Some? <==>
              data.JObject? && Truthy(Get(data.fields, "country")) && Truthy(Get(data.fields, "region"))
    ensures h.scraped.Some? ==> h.scraped.value == (Get(data.fields, "country"), Get(data.fields, "region"))
    ensures !data.JObject? ==> h.response == Response(500, ServerErrorPage)
    ensures data.JObject? && h.scraped.None? ==> h.response == JsonResponse(400, "error", MissingParameters)
    ensures h.scraped.Some? ==>
              h.response == match scrape(h.scraped.value.0, h.scraped.value.1)
                            case Pass => JsonResponse(200, "message", Completed)
                            case Fail(e) => JsonResponse(500, "error", e)
  {
    match data
    case JObject(fields) =>
      var country, region := Get(fields, "country"), Get(fields, "region");
      if !Truthy(country) || !Truthy(region) then
        Handled(JsonResponse(400, "error", MissingParameters), None)
      else
        var response := match scrape(country, region)
          case Pass => JsonResponse(200, "message", Completed)
          case Fail(e) => JsonResponse(500, "error", e);
        Handled(response, Some((country, region)))
    case _ => Handled(Response(500, ServerErrorPage), None)
  }

  /** A body without `region` (or with an empty or null one) is refused with 400 and runs nothing. */
  lemma MissingRegionIsRefused(fields: map<string, Json>, scrape: (Json, Json) -> Outcome<string>)
    requires "region" !in fields || !Truthy(fields["region"])
    ensures ScrapeImagesApi(JObject(fields), scrape) ==
              Handled(Response(400, JsonBody(JObject(map["error" := JString(MissingParameters)]))), None)
  {
  }

  /** The status is 400 exactly when a parameter is missing or falsy, and then the pipeline is not run. */
  lemma BadRequestIffMissingParameter(fields: map<string, Json>, scrape: (Json, Json) -> Outcome<string>)
    ensures ScrapeImagesApi(JObject(fields), scrape).response.status == 400 <==>
              !Truthy(Get(fields, "country")) || !Truthy(Get(fields, "region"))
    ensures ScrapeImagesApi(JObject(fields), scrape).response.status == 400 ==>
              ScrapeImagesApi(JObject(fields), scrape).scraped.None?
  {
  }

  /** With both parameters given, the pipeline runs once on them, and 200 means it raised nothing. */
  lemma ValidRequestRunsPipeline(country: string, region: string, scrape: (Json, Json) -> Outcome<string>)
    requires |country| > 0 && |region| > 0
    ensures var h := ScrapeImagesApi(JObject(map["country" := JString(country), "region" := JString(region)]), scrape);
            && h.scraped == Some((JString(country), JString(region)))
            && (h.response.status == 200 <==> scrape(JString(country), JString(region)).Pass?)
  {
    var fields := map["country" := JString(country), "region" := JString(region)];
    assert Get(fields, "country") == JString(country);
    assert Get(fields, "region") == JString(region);
  }
}
