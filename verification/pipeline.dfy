/** The two services composed: the front service's forward travels over a
    link that either fails with a transport error or delivers it to the back
    service, which decodes the forwarded JSON body. */
module Pipeline {

  import opened Wire
  import Cep
  import ZipCodeJson
  import Front = ZipCodeService
  import Back = WeatherService

  /** The back service as the front's `backend` parameter sees it:
      `transport(f)` is the transport error for forward `f`, if any. */
  function BackAsUpstream(transport: Front.Forward -> Option<string>,
                          viaCep: string -> Back.Reply<Back.Json>, weatherApi: string -> Back.Reply<Back.WeatherApi>)
    : Front.Forward -> Front.Upstream
  {
    (f: Front.Forward) =>
      match transport(f)
      case Some(err) => Front.TransportFailed(err)
      case None =>
        var x := Back.HandleRequest(Request(f.verb, ZipCodeJson.DecodeZipCode(f.body)), viaCep, weatherApi);
        Front.Answered(x.response.status, x.response.body)
  }

  /** Whatever the providers reply, the back service never answers a
      request the front forwarded with 405, 400 or 422: the forward is a
      POST whose body decodes to the front's code, and the two services
      share one validator. */
  lemma ForwardedNeverRejectedByBack(req: Request, backend: Front.Forward -> Front.Upstream,
                                     viaCep: string -> Back.Reply<Back.Json>,
                                     weatherApi: string -> Back.Reply<Back.WeatherApi>)
    ensures forall f :: f in Front.HandleRequest(req, backend).forwarded ==>
      var status := Back.HandleRequest(Request(f.verb, ZipCodeJson.DecodeZipCode(f.body)), viaCep, weatherApi).response.status;
      status != StatusUnprocessableEntity && status != StatusBadRequest && status != StatusMethodNotAllowed
  {
  }

  /** Seen from outside, the front in front of the back answers with the
      status and body the back alone would give, unless the link to the
      back fails, in which case the front answers its own 500. */
  lemma FrontIsTransparent(req: Request, transport: Front.Forward -> Option<string>,
                           viaCep: string -> Back.Reply<Back.Json>,
                           weatherApi: string -> Back.Reply<Back.WeatherApi>)
    ensures var x := Front.HandleRequest(req, BackAsUpstream(transport, viaCep, weatherApi));
      var back := Back.HandleRequest(req, viaCep, weatherApi).response;
      if |x.forwarded| == 1 && transport(x.forwarded[0]).Some? then
        x.response == HttpError(Front.InternalServerError, StatusInternalServerError)
      else
        x.response.status == back.status && x.response.body == back.body
  {
  }

  /** The front forwards a request exactly when the back, given the same
      request, would go on to look the CEP up. */
  lemma SameGate(req: Request, backend: Front.Forward -> Front.Upstream,
                 viaCep: string -> Back.Reply<Back.Json>, weatherApi: string -> Back.Reply<Back.WeatherApi>)
    ensures |Front.HandleRequest(req, backend).forwarded| > 0
        <==> |Back.HandleRequest(req, viaCep, weatherApi).lookups| > 0
  {
  }
}
