# Student registration form: handler model

This project models the request handler of a one-page student registration
form (a Flask app in `app.py`). On a POST the handler reads eight form
fields and strips their surrounding whitespace. It rejects the submission
when the full name, email or phone is empty, or when the email does not
parse to an address containing "@". Otherwise it composes a plain-text
e-mail and posts it once to the Brevo transactional e-mail API. It then
flashes one status, picked from the provider's HTTP status code or the
exception raised, and redirects back to the form. At import time the app
reads its API key, sender and optional recipient from the environment. It
refuses to start without the key or the sender.

Modules:

- `Wrappers` (`wrappers.dfy`): `Option` and `Result`.
- `PyStr` (`pystr.dfy`): the Python string behaviour the handler uses.
  This is `str.strip()` with Python's exact whitespace set, and `str(int)`
  with its inverse. It also has a line splitter used to state what the
  message body contains.
- `Flash` (`flash.dfy`): the status categories and the fixed status texts.
- `Settings` (`settings.dfy`): the environment, the `TO_EMAIL` fallback
  and the start-up check.
- `Intake` (`intake.dfy`): reading the form and the two validation checks.
- `Message` (`message.dfy`): the body f-string, its intended lines and its
  inverse, and the request sent to the provider.
- `Delivery` (`delivery.dfy`): mapping a provider outcome to a status.
- `Handler` (`handler.dfy`): the `register` view as a method that returns
  its reply and the list of requests it posted.

Two collaborators the handler calls but does not define are parameters.
`parseaddr(email)[1]` from `email.utils` is the function `addrOf`.
`requests.post` is the function `provider`, which maps a request to a
`DeliveryOutcome`. That outcome is either `Http(code, body)` or
`TransportError(detail)`, where `detail` is `str(e)` of the exception.

Three points about the code that the model keeps as written:

- `is_valid_email` (app.py:23-24) only tests whether "@" occurs in the
  address component of `parseaddr(email)`. It does not check that any text
  surrounds the "@".
- A 401 response is recognised inside `register()` itself (app.py:79), next
  to the success and other-code cases.
- `TO_EMAIL` falls back to the default sender when it is unset *or empty*,
  because app.py:16 uses Python's `or`.

## Model

| member | source | states |
|---|---|---|
| `Settings.Startup` | app.py:14-20 | Start-up succeeds exactly when the API key and the default sender are both set and non-empty. Failure carries the RuntimeError text. A started configuration has a non-empty key, sender and recipient. The recipient is `TO_EMAIL` when that is set and non-empty, and the default sender otherwise. |
| `PyStr.StripMeetsReference` | app.py:30-37 | `Strip(s)` meets the reference definition of `str.strip()`: it is a contiguous slice of `s`, everything removed before and after it is whitespace, and it neither starts nor ends with whitespace. |
| `PyStr.StripIsReference` | app.py:30-37 | The reference definition has exactly one solution, so `r` is the stripped form of `s` if and only if `r == Strip(s)`. |
| `PyStr.StripEmptyIff` | app.py:30-40 | A stripped value is empty exactly when the raw value is empty or all whitespace. |
| `PyStr.StripIdempotent` | app.py:30-37 | Stripping an already stripped value changes nothing. |
| `PyStr.StripKeepsCharacters` | app.py:30-37 | Stripping never introduces a character. |
| `PyStr.IntDecimalRoundTrip` | app.py:82 | `str(code)` for any integer status code, negative ones included, can be read back to that same code. |
| `Intake.ReadFormField` | app.py:30-37 | For each of the eight fields, in the handler's order, the submission's value is the stripped form of the posted text of that key. A missing key reads as `""`. |
| `Intake.Validate` | app.py:40-45 | The first failing check wins. The "required" warning is given exactly when the name, email or phone is empty. The "invalid email" warning is given exactly when all three are present and `is_valid_email` fails. The submission passes exactly when both checks pass, and nothing else can result. |
| `Intake.RequiredFieldsRejected` | app.py:30-42 | At the level of the raw form, the "required" warning is given exactly when the name, email or phone key is missing or holds only whitespace. |
| `Intake.EmailWithoutAtRejected` | app.py:23-45 | Suppose the address parser never invents an "@". Then a form whose three required fields hold text and whose email text has no "@" gets the "invalid email" warning. |
| `Message.BodyIsLines` | app.py:49-60 | The body f-string is, line by line, an empty line, the header "New Student Registration", an empty line, then `Label: value` for Full Name, Email, Phone, DOB, Gender, Course, Year and Address in that order, each line ended by a newline. Empty values still produce their line. |
| `Message.BodyRoundTrip` | app.py:49-60 | When no value holds a line break, splitting the body gives exactly those lines, and parsing the body gives back the submission. |
| `Delivery.ProviderFailureReadable` | app.py:82 | The warning for a status code other than 200, 201 and 401 always holds both the code and the full response text, and both can be read back from it. |
| `Delivery.Classify` | app.py:75-84 | Every outcome yields exactly one status. It is the success status exactly for HTTP 200 or 201. A 401 gives the fixed "Unauthorized (check API key)" warning. Any other code gives a warning from which the code and the response body can be read back. An exception gives the "email failed: " warning followed by the exception's text. |
| `Delivery.ClassifyExamples` | app.py:77-84 | Worked cases. 200 gives the success text and 201 is a success. The 401 warning contains "Unauthorized". A 500 with body "Internal error" gives a warning containing both "500" and "Internal error". A "Connection refused" exception gives a warning containing that text. |
| `Handler.Register` | app.py:26-88 | GET renders the form and sends nothing. Every POST ends in a redirect to the form and sends at most once. A submission that fails validation sends nothing and flashes that check's warning. A valid one posts exactly one request and flashes the status of that request's outcome. Every request posted has sender ("Aura Institute", default sender), the single recipient, the subject "New Student Registration", the configured API key and the composed body. |

## Left out

- Flask plumbing is left out: routing, `request.form` as a multi-dict (only the first value of a key is seen, as `.get` does), the session that carries flashed messages, and template rendering. A flash followed by a redirect is the `Redirect` reply carrying the status.
- The HTTP call itself is left out: the endpoint, TLS and the JSON encoding. The request is the `EmailRequest` record, and the provider's answer is the `provider` parameter.
- Handler.Register: assumes the call to the provider returns. `requests.post` at app.py:76 passes no timeout, so in the program the call can hang and the view then never reaches its redirect at app.py:86; "every POST ends in a redirect" holds only for calls that return.
- `email.utils.parseaddr` is not part of this model. Its address component is the `addrOf` parameter, so no lemma can say which addresses count as valid beyond what `addrOf` returns.
- `load_dotenv` and `os.getenv` are left out. The environment is the `Environment` record passed to `Startup`. The Flask secret key and its default are not modelled.
- `app.run` and any concurrency between requests are left out. The handler keeps no state between requests.
- Exceptions raised after the response arrives, for example while reading `response.text`, are left out. So are exceptions that do not derive from `Exception`. Only an exception from the call itself is modelled, as `TransportError`.
- Message.BodyRoundTrip: requires that no field value contains a line break. A multi-line address is still sent verbatim, but its lines can no longer be told apart from the labelled lines.
