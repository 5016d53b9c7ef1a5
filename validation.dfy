/** The API-key gate in front of the listing endpoint: a request passes on
    to the next handler only when its `crashbot` header equals the configured
    key; otherwise it gets a fixed 403 answer. */
module Validation {
  import opened Types

  datatype HttpResponse = HttpResponse(status: int, statusText: string, body: string)

  /** Either the request is handed to `next()`, or it is answered here. */
  datatype Decision = Forward | Respond(response: HttpResponse)

  const ForbiddenText: string := "Not allowed. Invalid API key."

  const Forbidden: HttpResponse := HttpResponse(403, ForbiddenText, ForbiddenText + "\n")

  /** validateAPIKey's decision. `configuredKey` is the `API_KEY` setting
      (absent reads as the empty string); `header` is the request's
      `crashbot` header (absent is null). */
  function ValidateAPIKey(configuredKey: Option<string>, header: Option<string>): (d: Decision)
    ensures d.Forward? <==> Truthy(header) && configuredKey == header
    ensures d.Respond? ==> d.response == Forbidden
    ensures !Truthy(configuredKey) ==> d == Respond(Forbidden)
  {
    var apiKeyFromEnv := match configuredKey case Some(k) => k case None => "";
    if Truthy(header) && header.value == apiKeyFromEnv then Forward
    else Respond(Forbidden)
  }
}
