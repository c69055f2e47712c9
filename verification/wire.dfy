/** Wire-level vocabulary shared by the two services: the decoded request
    payload, the back service's success document, HTTP responses and the
    `http.Error` helper both handlers use for every terminal failure. */
module Wire {

  datatype Option<+T> = None | Some(value: T)

  datatype Result<+T, +E> = Ok(value: T) | Err(error: E)

  /** The JSON payload `{"cep": "..."}` both services accept. */
  datatype ZipCode = ZipCode(cep: string)

  /** The back service's success document
      `{"city": ..., "temp_C": ..., "temp_F": ..., "temp_K": ...}`. */
  datatype WeatherReport = WeatherReport(city: string, tempC: real, tempF: real, tempK: real)

  /** A response body: either plain text or the JSON weather document.
      The front service relays either kind without looking inside. */
  datatype Body = Text(text: string) | Report(report: WeatherReport)

  datatype Response = Response(status: int, contentType: string, body: Body)

  /** An inbound request after the JSON decoder ran over its body:
      `decoded` is `None` exactly when the decoder reported an error. */
  datatype Request = Request(verb: string, decoded: Option<ZipCode>)

  const MethodPost := "POST"

  const StatusOK := 200
  const StatusBadRequest := 400
  const StatusNotFound := 404
  const StatusMethodNotAllowed := 405
  const StatusUnprocessableEntity := 422
  const StatusInternalServerError := 500

  const PlainTextContent := "text/plain; charset=utf-8"
  const JsonContent := "application/json"

  /** `http.Error(w, message, code)`: plain-text body holding the message
      followed by a newline. */
  function HttpError(message: string, code: int): (r: Response)
    ensures r.status == code
    ensures r.contentType == PlainTextContent
    ensures ErrorMessage(r) == Some(message)
  {
    Response(code, PlainTextContent, Text(message + "\n"))
  }

  /** The message a plain-text error body carries: its text without the
      trailing newline `http.Error` appends; `None` for any other body. */
  function ErrorMessage(r: Response): (m: Option<string>)
    ensures m.Some? ==> r.body.Text? && r.body.text == m.value + "\n"
  {
    if r.body.Text? && |r.body.text| > 0 && r.body.text[|r.body.text| - 1] == '\n' then
      var t := r.body.text;
      assert t == t[..|t| - 1] + "\n";
      Some(t[..|t| - 1])
    else
      None
  }

  /** Different (status, message) pairs give different error responses. */
  lemma HttpErrorInjective(m1: string, c1: int, m2: string, c2: int)
    ensures HttpError(m1, c1) == HttpError(m2, c2) <==> m1 == m2 && c1 == c2
  {
  }
}
