/** The back service (`weather/main.go`): validates a CEP, resolves it to a
    city through the ViaCEP provider, asks the weather provider for the
    city's current temperature and answers with a JSON weather report.

    The two providers are parameters: each is a total function from the
    query the handler sends to the reply it gets back. The handler returns
    its response together with the log of lookups it issued, so "no lookup
    is issued" is a statement about that log. */
module WeatherService {

  import opened Wire
  import Cep

  const MethodNotAllowed := "method not allowed"
  const UnprocessableEntity := "invalid zipcode"
  const InternalServerError := "error while searching for "
  const InvalidJson := "invalid json"
  const NotFoundMessage := "can not find zipcode"

  /** A JSON document as `encoding/json` sees it. */
  datatype Json =
    | JNull
    | JBool(b: bool)
    | JNumber(n: real)
    | JString(s: string)
    | JArray(items: seq<Json>)
    | JObject(fields: map<string, Json>)

  /** What reading and decoding a provider's response body produced. */
  datatype Payload<T> = ReadFailed(text: string) | Undecodable(text: string) | Decoded(value: T)

  /** The outcome of one GET to an external provider: a transport error,
      or a status code with the body as read and decoded. */
  datatype Reply<T> = TransportFailed(text: string) | Answered(status: int, payload: Payload<T>)

  /** The weather provider's document, reduced to `current.temp_c`. */
  datatype WeatherApi = WeatherApi(currentTempC: real)

  /** Why `searchCity` failed. */
  datatype CityError =
    | CityTransport(text: string)
    | CityStatus
    | CityRead(text: string)
    | CityDecode(text: string)
    | CityMarkedMissing
    | CityNoLocality

  /** An external lookup the handler issued, in order. */
  datatype Lookup = CityLookup(cep: string) | WeatherLookup(city: string)

  datatype Exchange = Exchange(response: Response, lookups: seq<Lookup>)

  /** `json.Unmarshal` into `map[string]interface{}`: an object yields its
      fields, `null` leaves the map nil (every lookup in it yields nil),
      any other document is a type error. */
  function AsObject(doc: Json): Option<map<string, Json>> {
    match doc
    case JObject(fields) => Some(fields)
    case JNull => Some(map[])
    case _ => None
  }

  /** The text of the error `json.Unmarshal` reports when a document of
      the wrong kind is decoded into `map[string]interface{}`. */
  function UnmarshalTypeError(doc: Json): string
    requires AsObject(doc).None?
  {
    var kind := match doc
      case JBool(_) => "bool"
      case JNumber(_) => "number"
      case JString(_) => "string"
      case JArray(_) => "array";
    "json: cannot unmarshal " + kind + " into Go value of type map[string]interface {}"
  }

  /** `m[key] != nil`: the key is present and not JSON null. */
  predicate NonNil(m: map<string, Json>, key: string) {
    key in m && m[key] != JNull
  }

  /** The ViaCEP document names a city: no non-null `"erro"` entry and a
      string `"localidade"`. */
  predicate NamesCity(m: map<string, Json>) {
    !NonNil(m, "erro") && "localidade" in m && m["localidade"].JString?
  }

  /** `searchCity`: classify the ViaCEP reply. */
  function SearchCity(reply: Reply<Json>): (r: Result<string, CityError>)
    ensures r.Ok? <==>
      && reply.Answered? && reply.status == StatusOK
      && reply.payload.Decoded? && AsObject(reply.payload.value).Some?
      && NamesCity(AsObject(reply.payload.value).value)
    ensures r.Ok? ==> r.value == AsObject(reply.payload.value).value["localidade"].s
    ensures reply.TransportFailed? ==> r == Err(CityTransport(reply.text))
    ensures reply.Answered? && reply.status != StatusOK ==> r == Err(CityStatus)
    ensures r == Err(CityMarkedMissing) <==>
      && reply.Answered? && reply.status == StatusOK
      && reply.payload.Decoded? && AsObject(reply.payload.value).Some?
      && NonNil(AsObject(reply.payload.value).value, "erro")
  {
    match reply
    case TransportFailed(t) => Err(CityTransport(t))
    case Answered(status, payload) =>
      if status != StatusOK then Err(CityStatus)
      else
        match payload
        case ReadFailed(t) => Err(CityRead(t))
        case Undecodable(t) => Err(CityDecode(t))
        case Decoded(doc) =>
          match AsObject(doc)
          case None => Err(CityDecode(UnmarshalTypeError(doc)))
          case Some(m) =>
            if NonNil(m, "erro") then Err(CityMarkedMissing)
            else if "localidade" in m && m["localidade"].JString? then Ok(m["localidade"].s)
            else Err(CityNoLocality)
  }

  /** `searchWeather`: classify the weather provider's reply; the error
      value is the text `err.Error()` yields. */
  function SearchWeather(reply: Reply<WeatherApi>): (r: Result<WeatherApi, string>)
    ensures r.Ok? <==> reply.Answered? && reply.status == StatusOK && reply.payload.Decoded?
    ensures r.Ok? ==> r.value == reply.payload.value
    ensures reply.Answered? && reply.status != StatusOK ==> r == Err(InternalServerError + "weather")
    ensures reply.TransportFailed? ==> r == Err(reply.text)
    ensures reply.Answered? && reply.status == StatusOK && !reply.payload.Decoded? ==>
      r == Err(reply.payload.text)
  {
    match reply
    case TransportFailed(t) => Err(t)
    case Answered(status, payload) =>
      if status != StatusOK then Err(InternalServerError + "weather")
      else
        match payload
        case ReadFailed(t) => Err(t)
        case Undecodable(t) => Err(t)
        case Decoded(api) => Ok(api)
  }

  /** `parseWeatherResponse`: the report keeps the city and the provider's
      Celsius reading, and each derived scale converts back to it. */
  function ParseWeatherResponse(city: string, api: WeatherApi): (r: WeatherReport)
    ensures r.city == city && r.tempC == api.currentTempC
    ensures (r.tempF - 32.0) * 5.0 / 9.0 == r.tempC
    ensures r.tempK - 273.0 == r.tempC
  {
    var c := api.currentTempC;
    WeatherReport(city, c, c * 1.8 + 32.0, c + 273.0)
  }

  /** `HandleRequest`: method, JSON decode, CEP validation, city lookup,
      weather lookup, JSON answer; the first failing step decides the
      response and nothing after it runs. */
  function HandleRequest(req: Request, viaCep: string -> Reply<Json>, weatherApi: string -> Reply<WeatherApi>): (x: Exchange)
    ensures req.verb != MethodPost ==>
      x == Exchange(HttpError(MethodNotAllowed, StatusMethodNotAllowed), [])
    ensures req.verb == MethodPost && req.decoded.None? ==>
      x == Exchange(HttpError(InvalidJson, StatusBadRequest), [])
    ensures req.verb == MethodPost && req.decoded.Some? && !Cep.IsCep(req.decoded.value.cep) ==>
      x == Exchange(HttpError(UnprocessableEntity, StatusUnprocessableEntity), [])
    ensures req.verb == MethodPost && req.decoded.Some? && Cep.IsCep(req.decoded.value.cep) ==>
      var cep := req.decoded.value.cep;
      && |x.lookups| >= 1 && x.lookups[0] == CityLookup(cep)
      && (SearchCity(viaCep(cep)).Err? ==>
            x == Exchange(HttpError(NotFoundMessage, StatusNotFound), [CityLookup(cep)]))
      && (SearchCity(viaCep(cep)).Ok? ==>
            var city := SearchCity(viaCep(cep)).value;
            && x.lookups == [CityLookup(cep), WeatherLookup(city)]
            && (SearchWeather(weatherApi(city)).Err? ==>
                  x.response == HttpError(InternalServerError + "weather: " + SearchWeather(weatherApi(city)).error,
                                          StatusInternalServerError))
            && (SearchWeather(weatherApi(city)).Ok? ==>
                  && x.response.status == StatusOK && x.response.contentType == JsonContent
                  && x.response.body.Report?
                  && x.response.body.report.city == city
                  && x.response.body.report.tempC == weatherApi(city).payload.value.currentTempC))
  {
    if req.verb != MethodPost then
      Exchange(HttpError(MethodNotAllowed, StatusMethodNotAllowed), [])
    else if req.decoded.None? then
      Exchange(HttpError(InvalidJson, StatusBadRequest), [])
    else
      var cep := req.decoded.value.cep;
      if !Cep.Validate(cep) then
        Exchange(HttpError(UnprocessableEntity, StatusUnprocessableEntity), [])
      else
        match SearchCity(viaCep(cep))
        case Err(_) =>
          Exchange(HttpError(NotFoundMessage, StatusNotFound), [CityLookup(cep)])
        case Ok(city) =>
          var lookups := [CityLookup(cep), WeatherLookup(city)];
          match SearchWeather(weatherApi(city))
          case Err(e) =>
            Exchange(HttpError(InternalServerError + "weather: " + e, StatusInternalServerError), lookups)
          case Ok(api) =>
            Exchange(Response(StatusOK, JsonContent, Report(ParseWeatherResponse(city, api))), lookups)
  }

  /** The response status alone tells which step ended the request, in
      both directions. */
  lemma StatusIdentifiesStep(req: Request, viaCep: string -> Reply<Json>, weatherApi: string -> Reply<WeatherApi>)
    ensures var x := HandleRequest(req, viaCep, weatherApi);
      && (x.response.status == StatusMethodNotAllowed <==> req.verb != MethodPost)
      && (x.response.status == StatusBadRequest <==> req.verb == MethodPost && req.decoded.None?)
      && (x.response.status == StatusUnprocessableEntity <==>
            req.verb == MethodPost && req.decoded.Some? && !Cep.IsCep(req.decoded.value.cep))
      && (x.response.status == StatusNotFound <==>
            && req.verb == MethodPost && req.decoded.Some? && Cep.IsCep(req.decoded.value.cep)
            && SearchCity(viaCep(req.decoded.value.cep)).Err?)
      && (x.response.status == StatusInternalServerError <==>
            && req.verb == MethodPost && req.decoded.Some? && Cep.IsCep(req.decoded.value.cep)
            && SearchCity(viaCep(req.decoded.value.cep)).Ok?
            && SearchWeather(weatherApi(SearchCity(viaCep(req.decoded.value.cep)).value)).Err?)
      && (x.response.status == StatusOK <==> x.response.body.Report?)
  {
  }

  /** A non-POST request is answered without looking at its body or
      consulting any provider. */
  lemma MethodCheckedFirst(verb: string, d1: Option<ZipCode>, d2: Option<ZipCode>,
                           viaCep1: string -> Reply<Json>, viaCep2: string -> Reply<Json>,
                           weather1: string -> Reply<WeatherApi>, weather2: string -> Reply<WeatherApi>)
    requires verb != MethodPost
    ensures HandleRequest(Request(verb, d1), viaCep1, weather1) == HandleRequest(Request(verb, d2), viaCep2, weather2)
  {
  }

  /** A malformed CEP is rejected whatever the providers would answer. */
  lemma FormatCheckedBeforeLookups(cep: string,
                                   viaCep1: string -> Reply<Json>, viaCep2: string -> Reply<Json>,
                                   weather1: string -> Reply<WeatherApi>, weather2: string -> Reply<WeatherApi>)
    requires !Cep.IsCep(cep)
    ensures var req := Request(MethodPost, Some(ZipCode(cep)));
      HandleRequest(req, viaCep1, weather1) == HandleRequest(req, viaCep2, weather2)
  {
  }

  /** When the city lookup fails the weather provider is never consulted:
      the answer does not depend on it. */
  lemma WeatherNeedsCity(cep: string, viaCep: string -> Reply<Json>,
                         weather1: string -> Reply<WeatherApi>, weather2: string -> Reply<WeatherApi>)
    requires SearchCity(viaCep(cep)).Err?
    ensures var req := Request(MethodPost, Some(ZipCode(cep)));
      HandleRequest(req, viaCep, weather1) == HandleRequest(req, viaCep, weather2)
  {
  }

  /** The lookup log is a prefix of [city lookup of the CEP, weather lookup
      of the city that lookup resolved]. */
  lemma LookupsInOrder(req: Request, viaCep: string -> Reply<Json>, weatherApi: string -> Reply<WeatherApi>)
    ensures var x := HandleRequest(req, viaCep, weatherApi);
      && |x.lookups| <= 2
      && (|x.lookups| >= 1 ==>
            && req.verb == MethodPost && req.decoded.Some? && Cep.IsCep(req.decoded.value.cep)
            && x.lookups[0] == CityLookup(req.decoded.value.cep))
      && (|x.lookups| == 2 ==>
            && SearchCity(viaCep(req.decoded.value.cep)).Ok?
            && x.lookups[1] == WeatherLookup(SearchCity(viaCep(req.decoded.value.cep)).value))
  {
  }
}
