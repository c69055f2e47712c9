/** The front service (`zip_code/main.go`): validates a CEP, forwards it to
    the back service and relays the back service's status and body.

    The back service is a parameter: a total function from the request the
    front sends to what comes back. The handler returns its response
    together with the log of requests it forwarded. */
module ZipCodeService {

  import opened Wire
  import Cep
  import ZipCodeJson

  const BackServiceUrl := "http://goapp-weather:8181/weather"

  const MethodNotAllowed := "method not allowed"
  const UnprocessableEntity := "invalid zipcode"
  const InternalServerError := "error while searching for weather"
  const InvalidJson := "invalid json"

  /** An outbound HTTP request to the back service. */
  datatype Forward = Forward(verb: string, url: string, contentType: string, body: string)

  /** What forwarding produced: a transport error, or the back service's
      status and body. */
  datatype Upstream = TransportFailed(text: string) | Answered(status: int, body: Body)

  datatype Exchange = Exchange(response: Response, forwarded: seq<Forward>)

  /** A valid CEP is written into a JSON string as it is. */
  lemma ValidCepUnescaped(cep: string)
    ensures Cep.IsCep(cep) ==> ZipCodeJson.Escape(cep) == cep
  {
    if Cep.IsCep(cep) {
      forall i | 0 <= i < |cep| ensures '0' <= cep[i] <= '9' || cep[i] == '-' {
        if |cep| == 9 && i != 5 {
          if i < 5 {
            assert cep[i] == cep[..5][i];
          } else {
            assert cep[i] == cep[6..][i - 6];
          }
        }
      }
      ZipCodeJson.PlainTextUnescaped(cep);
    }
  }

  /** The request `searchWeather` builds: a JSON POST to the fixed back
      service address whose body decodes back to the code it was given;
      a valid CEP appears in the body character for character. */
  function SearchWeather(z: ZipCode): (f: Forward)
    ensures f.verb == MethodPost && f.url == BackServiceUrl && f.contentType == JsonContent
    ensures ZipCodeJson.DecodeZipCode(f.body) == Some(z)
    ensures Cep.IsCep(z.cep) ==> f.body == "{\"cep\":\"" + z.cep + "\"}"
  {
    ZipCodeJson.DecodeEncode(z);
    ValidCepUnescaped(z.cep);
    Forward(MethodPost, BackServiceUrl, JsonContent, ZipCodeJson.EncodeZipCode(z))
  }

  /** `HandleRequest`: method, JSON decode and CEP validation as in the back
      service, then one forward; a transport failure is a 500, any answer
      is relayed with its status and body untouched. */
  function HandleRequest(req: Request, backend: Forward -> Upstream): (x: Exchange)
    ensures req.verb != MethodPost ==>
      x == Exchange(HttpError(MethodNotAllowed, StatusMethodNotAllowed), [])
    ensures req.verb == MethodPost && req.decoded.None? ==>
      x == Exchange(HttpError(InvalidJson, StatusBadRequest), [])
    ensures req.verb == MethodPost && req.decoded.Some? && !Cep.IsCep(req.decoded.value.cep) ==>
      x == Exchange(HttpError(UnprocessableEntity, StatusUnprocessableEntity), [])
    ensures req.verb == MethodPost && req.decoded.Some? && Cep.IsCep(req.decoded.value.cep) ==>
      && |x.forwarded| == 1
      && var f := x.forwarded[0];
      && f.verb == MethodPost && f.url == BackServiceUrl && f.contentType == JsonContent
      && ZipCodeJson.DecodeZipCode(f.body) == Some(req.decoded.value)
      && (backend(f).TransportFailed? ==>
            x.response == HttpError(InternalServerError, StatusInternalServerError))
      && (backend(f).Answered? ==>
            && x.response.status == backend(f).status
            && x.response.body == backend(f).body
            && x.response.contentType == JsonContent)
  {
    if req.verb != MethodPost then
      Exchange(HttpError(MethodNotAllowed, StatusMethodNotAllowed), [])
    else if req.decoded.None? then
      Exchange(HttpError(InvalidJson, StatusBadRequest), [])
    else if !Cep.Validate(req.decoded.value.cep) then
      Exchange(HttpError(UnprocessableEntity, StatusUnprocessableEntity), [])
    else
      var f := SearchWeather(req.decoded.value);
      match backend(f)
      case TransportFailed(_) =>
        Exchange(HttpError(InternalServerError, StatusInternalServerError), [f])
      case Answered(status, body) =>
        Exchange(Response(status, JsonContent, body), [f])
  }

  /** Only a code that passes the validator is ever forwarded: every
      forwarded body decodes to a valid CEP. */
  lemma ForwardedCodesAreValid(req: Request, backend: Forward -> Upstream)
    ensures forall f :: f in HandleRequest(req, backend).forwarded ==>
      var d := ZipCodeJson.DecodeZipCode(f.body);
      d.Some? && Cep.IsCep(d.value.cep)
  {
  }

  /** A non-POST request is answered without looking at its body or
      contacting the back service. */
  lemma MethodCheckedFirst(verb: string, d1: Option<ZipCode>, d2: Option<ZipCode>,
                           backend1: Forward -> Upstream, backend2: Forward -> Upstream)
    requires verb != MethodPost
    ensures HandleRequest(Request(verb, d1), backend1) == HandleRequest(Request(verb, d2), backend2)
  {
  }
}
