/** The request-log page's readable name for the endpoint a log was
    written by. */
module RequestLogDetailsPage {
  import opened Common
  import AiEndpoints

  /** The lookup table: a name for each endpoint the AI handlers log. */
  function FeatureLabel(endpoint: string): (r: Option<string>)
    ensures r.Some? <==> endpoint in {"testcases", "risk", "regression", "summary"}
  {
    if endpoint == "testcases" then Some("Test Cases Generation")
    else if endpoint == "risk" then Some("Risk Analysis")
    else if endpoint == "regression" then Some("Regression Testing")
    else if endpoint == "summary" then Some("Test Summary")
    else None
  }

  /** `mapping[endpoint] || endpoint`. */
  function FeatureName(endpoint: string): (r: string)
    ensures FeatureLabel(endpoint).Some? ==> r == FeatureLabel(endpoint).value
    ensures FeatureLabel(endpoint).None? ==> r == endpoint
  {
    match FeatureLabel(endpoint)
    case Some(name) => if name != "" then name else endpoint
    case None => endpoint
  }

  /** The four labels are distinct, so the page never shows two
      endpoints under one name. */
  lemma KnownNamesDistinct(a: string, b: string)
    requires FeatureLabel(a).Some? && FeatureLabel(b).Some? && a != b
    ensures FeatureName(a) != FeatureName(b)
  {
  }

  /** A readable name is not itself one of the mapped endpoints. */
  lemma NameIsNotAnEndpoint(e: string)
    requires FeatureLabel(e).Some?
    ensures FeatureLabel(FeatureName(e)).None?
  {
  }

  /** Every endpoint an AI handler logs under gets a readable name. */
  lemma EveryAiEndpointNamed(req: AiEndpoints.AiRequest)
    ensures FeatureLabel(AiEndpoints.Endpoint(req)).Some?
    ensures FeatureName(AiEndpoints.Endpoint(req)) != AiEndpoints.Endpoint(req)
  {
  }
}
