# CEP weather pipeline: request handlers as pure functions

This project models the request handling of a two-service pipeline that
turns a Brazilian postal code (CEP) into the current temperature of its
city.

- The **front service** (`zip_code/main.go`) accepts `POST /weather` with
  `{"cep": "..."}`. It checks the method, decodes the body and validates the
  CEP. It then forwards the CEP to the back service and relays that
  service's status and body.
- The **back service** (`weather/main.go`) runs the same three checks. It
  then resolves the CEP to a city through the ViaCEP provider, asks the
  weather provider for the city's current Celsius temperature, and answers
  with a JSON report in Celsius, Fahrenheit and Kelvin.

Each handler is a total function from the request and its collaborators
to the response. The collaborators are the two providers for the back and
the back service for the front, each given as a function from query to
reply. Each handler also returns the log of outbound calls it made. So
"this step never runs" is stated two ways: the log is empty, and the answer
does not depend on the collaborator.

Files, one module each:

- `wire.dfy` (`Wire`): the decoded request, the response, the weather
  report, and `http.Error` (message plus newline, plain text).
- `cep.dfy` (`Cep`): the expression `^[0-9]{5}-?[0-9]{3}$` as data in a
  small anchored pattern language, with its matcher. `CepPatternExact`
  proves that it accepts exactly 8 ASCII digits, or 5 digits, `-` and
  3 digits.
- `weather_service.dfy` (`WeatherService`): `searchCity`, `searchWeather`,
  `parseWeatherResponse` and the back `HandleRequest`.
- `zip_code_json.dfy` (`ZipCodeJson`): the JSON text of a `ZipCode`. The
  encoder follows `json.Marshal`'s string escaping. A decoder reads that
  form back, and `DecodeEncode` proves the round trip for every code.
- `zip_code_service.dfy` (`ZipCodeService`): the forwarded request and the
  front `HandleRequest`.
- `pipeline.dfy` (`Pipeline`): the front wired to the back over a link that
  may fail with a transport error. The back decodes the forwarded body. The
  front never forwards a request the back rejects at its own gate. When the
  link delivers, the pair answers with the back's status and body. When the
  link fails, the front answers its own 500.

Points where the code behaves differently from what one might expect, all
modelled as the code does it:

- The code answers every `searchCity` failure with 404 "can not find
  zipcode" (`weather/main.go:128-131`). That covers transport errors,
  non-200 statuses and a missing `localidade` too. There is no 500 "error
  while searching for city" response.
- The not-found marker counts when the `"erro"` entry is present and not
  JSON null. Its value does not matter, so `"erro": false` also means not
  found.
- The front sets `Content-Type: application/json` before relaying
  (`zip_code/main.go:119`). So a relayed plain-text error from the back
  goes out labelled as JSON.
- A non-200 weather reply gives the message "error while searching for
  weather: error while searching for weather". The handler's prefix is
  followed by `searchWeather`'s own error text.

## Model

| member | source | states |
|---|---|---|
| Wire.HttpError | weather/main.go:111 | the error response has the given status and plain-text content type, and its body yields back exactly the message |
| Wire.ErrorMessage | weather/main.go:118 | a message recovered from a response is the body's text without the trailing newline `http.Error` appends |
| Wire.HttpErrorInjective | weather/main.go:110-131 | two error responses are equal iff their messages and statuses are equal, so different (status, message) pairs give different error responses |
| Cep.TimesMatches | weather/main.go:122 | a counted repetition `atom{k}` consumes exactly the next k characters, each accepted by the atom |
| Cep.CepPatternExact | weather/main.go:122-123 | the anchored pattern matches s iff s is 8 ASCII digits, or 5 digits, '-' and 3 digits |
| Cep.Validate | zip_code/main.go:106-107 | the validator both services use accepts exactly the CEP shapes above |
| Cep.HyphenIsOptional | weather/main.go:122 | for 5 leading and 3 trailing characters, the verdict is the same with and without the hyphen |
| Cep.TrailingNewlineRejected | weather/main.go:122-123 | no string ending in a newline is accepted (`$` is end of text only) |
| ZipCodeJson.ParseEscaped | zip_code/main.go:134 | an escaped string followed by a closing quote reads back as the original string, for every string |
| ZipCodeJson.DecodeEncode | zip_code/main.go:134 | decoding the JSON body `json.Marshal` makes of a `ZipCode` gives back the same `ZipCode`, whatever the code holds |
| ZipCodeJson.PlainTextUnescaped | zip_code/main.go:134 | a string of digits and hyphens is written into JSON unescaped |
| WeatherService.SearchCity | weather/main.go:168-206 | a city is returned iff the status is 200, the body decodes to an object (or null), `erro` is absent or null and `localidade` is a string; the city is that string; transport and status failures and the not-found marker give their own error variants |
| WeatherService.SearchWeather | weather/main.go:208-242 | a reading is returned iff the status is 200 and the body decodes; it is the decoded reading; a non-200 status gives the text "error while searching for weather", other failures their own error text |
| WeatherService.ParseWeatherResponse | weather/main.go:151-158 | the report keeps the city and the Celsius reading unchanged, and its Fahrenheit and Kelvin values convert back to that reading |
| WeatherService.HandleRequest | weather/main.go:105-149 | non-POST gives 405, undecodable body 400, invalid CEP 422, all with no lookup; any city failure gives 404 after one city lookup; a weather failure gives 500 "error while searching for weather: " plus the error text; success gives 200 JSON with the resolved city and the provider's Celsius value |
| WeatherService.StatusIdentifiesStep | weather/main.go:110-148 | each status (405, 400, 422, 404, 500) holds iff its step was the first to fail, and 200 iff the body is a weather report |
| WeatherService.MethodCheckedFirst | weather/main.go:110-113 | a non-POST request gets the same answer whatever its body and whatever the providers would reply |
| WeatherService.FormatCheckedBeforeLookups | weather/main.go:122-126 | an invalid CEP gets the same answer whatever the providers would reply |
| WeatherService.WeatherNeedsCity | weather/main.go:128-134 | when the city lookup fails, the answer does not depend on the weather provider |
| WeatherService.LookupsInOrder | weather/main.go:128-134 | at most two lookups are made: first the city lookup of the validated CEP, then the weather lookup of the city that lookup resolved |
| ZipCodeService.ValidCepUnescaped | zip_code/main.go:134 | a code that passes the validator is written into the JSON body character for character |
| ZipCodeService.SearchWeather | zip_code/main.go:128-148 | the forwarded request is a JSON POST to the fixed back-service address; its body decodes back to the given `ZipCode`, and for a valid CEP it is exactly `{"cep":"<cep>"}` |
| ZipCodeService.HandleRequest | zip_code/main.go:89-126 | non-POST gives 405, undecodable body 400, invalid CEP 422, all with nothing forwarded; otherwise exactly one forward whose body decodes to the request's code; a transport failure gives 500 "error while searching for weather"; any upstream status (404, 422, 500 included) and body are relayed unchanged |
| ZipCodeService.ForwardedCodesAreValid | zip_code/main.go:106-112 | every forwarded body decodes to a code that passes the validator |
| ZipCodeService.MethodCheckedFirst | zip_code/main.go:94-97 | a non-POST request gets the same answer whatever its body and whatever the back service would reply |
| Pipeline.ForwardedNeverRejectedByBack | zip_code/main.go:106-112 | whatever the providers reply, the back, decoding the forwarded body, never answers a forwarded request with 405, 400 or 422 |
| Pipeline.FrontIsTransparent | zip_code/main.go:112-121 | with the back behind the front, a failed link gives the front's own 500 "error while searching for weather"; otherwise the pair answers with the back's status and body |
| Pipeline.SameGate | zip_code/main.go:94-112 | the front forwards a request iff the back, given the same request, makes a city lookup |

## Left out

- Tracing and its span properties (one trace per request, parent/child nesting): OpenTelemetry provider setup, the gRPC dial with its one-second timeout, the batch span processor, and span start, end and attributes. These are library plumbing and do not affect responses.
- Configuration and bootstrap: viper environment lookups, `main`, `ListenAndServe` and `log.Printf`. These are process I/O.
- Decoding of inbound bodies is abstract. The request a handler gets is an `Option<ZipCode>`. A provider body is a read failure, a decode failure or a decoded value.
- ZipCodeJson.DecodeZipCode: accepts only the compact form `{"cep":"..."}` that `json.Marshal` writes. Go's decoder also accepts whitespace, other key orders, extra keys, a differently cased key and surrogate pairs. The model only uses this decoder on bodies the front itself produced.
- ZipCodeJson.EscapeChar: backspace and form feed are written as `\u0008` and `\u000c`. Newer Go releases write `\b` and `\f` instead. A valid CEP contains neither.
- WeatherService.HandleRequest: a Celsius reading near the float64 limit makes `TempC*1.8+32` overflow to infinity (`weather/main.go:155`). `json.NewEncoder(w).Encode` then fails, and the code ignores that error after `WriteHeader(200)` (`weather/main.go:147-148`). The source answers 200 with an empty body. The model, on exact reals, answers 200 with the report.
- WeatherService.StatusIdentifiesStep: "200 iff the body is a weather report" does not hold in the source in the overflow case above. There the 200 carries an empty body.
- Floating point. Temperatures are exact reals, so `1.8` is exactly 9/5 and float64 rounding is not modelled. The `%.1f` span string is left out.
- `url.QueryEscape` and the `fmt.Sprintf` URL templates are left out. The lookup log records the CEP and the unescaped city instead of the URLs.
- The header `X-Content-Type-Options: nosniff` that `http.Error` also sets is not modelled.
- The `io.Copy` failure branch of the front (`zip_code/main.go:122-124`) is left out. The status has already been written by then, so it cannot change the status.
- `json.Marshal` and `http.NewRequestWithContext` failures in the front's `searchWeather` are left out. They cannot fail for a string-only struct and a constant URL and method.
- ZipCodeService.HandleRequest: a status outside 100-999 from upstream, which makes `WriteHeader` panic, is not modelled.
