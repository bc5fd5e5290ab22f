/** Mapping the result of the one call to the e-mail provider onto the
    status the user sees. */
module Delivery {
  import opened Wrappers
  import opened PyStr
  import opened Flash

  /** What one `requests.post` call comes to: a response, or an exception. */
  datatype DeliveryOutcome =
    | Http(code: int, body: string)    // response.status_code, response.text
    | TransportError(detail: string)   // str(e) of the exception raised

  /** 200 OK and 201 Created count as sent. */
  predicate Delivered(code: int) {
    code == 200 || code == 201
  }

  /** The warning for any status other than 200, 201 and 401. */
  function ProviderFailureText(code: int, body: string): string {
    ProviderFailurePrefix + IntToDecimal(code) + "): " + body
  }

  /** Reads the status code and the response text back out of a
      provider-failure warning. */
  function ParseProviderFailure(text: string): Option<(int, string)> {
    if ProviderFailurePrefix <= text then ParseCodeAndBody(text[|ProviderFailurePrefix|..]) else None
  }

  /** Reads `<code>): <body>`. */
  function ParseCodeAndBody(rest: string): Option<(int, string)> {
    var k := FirstIndex(rest, ')');
    if k + 3 <= |rest| && rest[k..k + 3] == "): " then
      match ParseDecimal(rest[..k])
      case Some(code) => Some((code, rest[k + 3..]))
      case None => None
    else None
  }

  lemma CodeAndBodyReadable(code: int, body: string)
    ensures ParseCodeAndBody(IntToDecimal(code) + ("): " + body)) == Some((code, body))
  {
    var d := IntToDecimal(code);
    var rest := d + ("): " + body);
    assert ')' !in d by {
      if code < 0 { assert d == [d[0]] + d[1..]; }
    }
    FirstIndexAfter(d, "): " + body, ')');
    assert FirstIndex(rest, ')') == |d|;
    assert rest[..|d|] == d;
    assert rest[|d|..|d| + 3] == "): ";
    assert rest[|d| + 3..] == body;
    IntDecimalRoundTrip(code);
  }

  /** The provider-failure warning keeps both the code and the response
      text, whatever the text holds. */
  lemma ProviderFailureReadable(code: int, body: string)
    ensures ParseProviderFailure(ProviderFailureText(code, body)) == Some((code, body))
  {
    var rest := IntToDecimal(code) + ("): " + body);
    var text := ProviderFailureText(code, body);
    assert text == ProviderFailurePrefix + rest;
    assert ProviderFailurePrefix <= text && text[|ProviderFailurePrefix|..] == rest;
    CodeAndBodyReadable(code, body);
  }

  /** The status flashed after the send: exactly one per outcome, success
      only for 200 and 201. */
  function Classify(outcome: DeliveryOutcome): (status: Status)
    ensures status.category == Success <==> outcome.Http? && Delivered(outcome.code)
    ensures status.category == Success ==> status.text == SentText
    ensures outcome.Http? && outcome.code == 401 ==> status == Status(Warning, UnauthorizedText)
    ensures outcome.Http? && !Delivered(outcome.code) && outcome.code != 401 ==>
      ParseProviderFailure(status.text) == Some((outcome.code, outcome.body))
    ensures outcome.TransportError? ==>
      TransportFailurePrefix <= status.text && status.text[|TransportFailurePrefix|..] == outcome.detail
  {
    match outcome
    case Http(code, body) =>
      if Delivered(code) then Status(Success, SentText)
      else if code == 401 then Status(Warning, UnauthorizedText)
      else
        ProviderFailureReadable(code, body);
        Status(Warning, ProviderFailureText(code, body))
    case TransportError(detail) =>
      Status(Warning, TransportFailurePrefix + detail)
  }

  predicate IsInfix(part: string, whole: string) {
    exists i :: 0 <= i <= |whole| && part <= whole[i..]
  }

  /** Concrete outcomes: a 401 names the cause, a 500 with body "Internal
      error" shows both, and a refused connection shows its description. */
  lemma ClassifyExamples()
    ensures Classify(Http(200, "")).text == SentText
    ensures Classify(Http(201, "")).category == Success
    ensures IsInfix("Unauthorized", Classify(Http(401, "")).text)
    ensures IsInfix("500", Classify(Http(500, "Internal error")).text)
    ensures IsInfix("Internal error", Classify(Http(500, "Internal error")).text)
    ensures IsInfix("Connection refused", Classify(TransportError("Connection refused")).text)
  {
    var u := Classify(Http(401, "")).text;
    assert u == UnauthorizedText;
    assert "Unauthorized" <= u[38..];
    assert NatToDecimal(5) == "5";
    assert NatToDecimal(50) == "50";
    assert IntToDecimal(500) == "500";
    var t := Classify(Http(500, "Internal error")).text;
    assert t == ProviderFailurePrefix + "500" + "): " + "Internal error";
    var p := |ProviderFailurePrefix|;
    assert "500" <= t[p..];
    assert "Internal error" <= t[p + 6..];
    var c := Classify(TransportError("Connection refused")).text;
    assert "Connection refused" <= c[|TransportFailurePrefix|..];
  }
}
