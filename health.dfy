/** The health prober: `checkHealthiness` issues one GET and hands the body to
    `convertToObject`, which reads it whole and decodes it as JSON into
    `apiResponse`. The network, the body read and the JSON decoder are
    outside the model; their outcomes are inputs. */
module Health {
  import opened Common

  /** Go's `apiResponse`: the one field decoded from the body. */
  datatype ApiResponse = ApiResponse(isHealthy: bool)

  /** What `json.Unmarshal(data, &convertedObject)` does with a body. A body
      that is not valid JSON is rejected before anything is assigned, so
      `IsHealthy` keeps its zero value. A valid body leaves behind the value
      of `IsHealthy` after the call (false unless the body assigned it), and
      the error the call returned, if any (a field of the wrong type). */
  datatype Unmarshalled =
    | Malformed(syntaxError: Error)
    | Decoded(isHealthy: bool, err: Option<Error>)

  /** The outcome of `ioutil.ReadAll(response.Body)`. */
  datatype Body = BodyRead(decoded: Unmarshalled) | BodyFailed(err: Error)

  /** The outcome of `http.Get(url)`; the status code is never looked at. */
  datatype HttpOutcome = HttpFailed(err: Error) | HttpResponse(body: Body)

  /** What `checkHealthiness` returns: Go's `(bool, error)` pair. */
  datatype Verdict = Verdict(healthy: bool, err: Option<Error>)

  /** `convertToObject`: a body that cannot be read is an error; otherwise
      the decoded object is returned and the decoder's error is dropped. */
  function ConvertToObject(body: Body): (r: Result<ApiResponse, Error>)
    ensures r.Failure? <==> body.BodyFailed?
    ensures body.BodyFailed? ==> r.error == body.err
    ensures body.BodyRead? && body.decoded.Malformed? ==> r.value == ApiResponse(false)
    ensures body.BodyRead? && body.decoded.Decoded? ==> r.value.isHealthy == body.decoded.isHealthy
  {
    match body
    case BodyFailed(err) => Failure(err)
    case BodyRead(Malformed(_)) => Success(ApiResponse(false))
    case BodyRead(Decoded(isHealthy, _)) => Success(ApiResponse(isHealthy))
  }

  /** `checkHealthiness`: an error from the request or from reading the body
      gives `(false, err)`; otherwise `(IsHealthy, nil)`. */
  function CheckHealthiness(outcome: HttpOutcome): (v: Verdict)
    ensures v.err.Some? ==> !v.healthy
    ensures v.err.None? <==> outcome.HttpResponse? && outcome.body.BodyRead?
    ensures outcome.HttpFailed? ==> v.err == Some(outcome.err)
    ensures outcome.HttpResponse? && outcome.body.BodyFailed? ==> v.err == Some(outcome.body.err)
    ensures v.healthy <==>
      (outcome.HttpResponse? && outcome.body.BodyRead? && outcome.body.decoded.Decoded? && outcome.body.decoded.isHealthy)
  {
    match outcome
    case HttpFailed(err) => Verdict(false, Some(err))
    case HttpResponse(body) =>
      match ConvertToObject(body)
      case Failure(err) => Verdict(false, Some(err))
      case Success(response) => Verdict(response.isHealthy, None)
  }

  /** A body the decoder rejects is not reported as an error. Malformed JSON
      reads as not healthy; a body rejected after `IsHealthy` was assigned
      reads as whatever that assignment left. */
  lemma DecodeErrorIsSwallowed(decoded: Unmarshalled)
    requires decoded.Malformed? || decoded.err.Some?
    ensures decoded.Malformed? ==> CheckHealthiness(HttpResponse(BodyRead(decoded))) == Verdict(false, None)
    ensures decoded.Decoded? ==> CheckHealthiness(HttpResponse(BodyRead(decoded))) == Verdict(decoded.isHealthy, None)
  {
  }
}
