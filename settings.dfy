/** Process configuration: the environment values read once at import time,
    the `TO_EMAIL` fallback and the refusal to start without credentials. */
module Settings {
  import opened Wrappers

  /** What `os.getenv` returns for each variable: `None` when unset. */
  datatype Environment = Environment(
    apiKey: Option<string>,        // BREVO_API_KEY
    defaultSender: Option<string>, // MAIL_DEFAULT_SENDER
    toEmail: Option<string>        // TO_EMAIL
  )

  /** The configuration a running process has. */
  datatype Config = Config(apiKey: string, sender: string, recipient: string) {
    predicate Valid() {
      apiKey != "" && sender != "" && recipient != ""
    }
  }

  const StartupError := "BREVO_API_KEY or MAIL_DEFAULT_SENDER not set in .env"

  /** Python truthiness of an optional string: set and non-empty. */
  predicate Truthy(v: Option<string>) {
    v.Some? && v.value != ""
  }

  /** Python's `a or b` on optional strings. */
  function Or(a: Option<string>, b: Option<string>): Option<string> {
    if Truthy(a) then a else b
  }

  /** Module start-up: either the configuration or the `RuntimeError` text. */
  function Startup(env: Environment): (r: Result<Config, string>)
    ensures r.Ok? <==> Truthy(env.apiKey) && Truthy(env.defaultSender)
    ensures r.Err? ==> r.error == StartupError
    ensures r.Ok? ==>
      && r.value.Valid()
      && r.value.apiKey == env.apiKey.value
      && r.value.sender == env.defaultSender.value
      && r.value.recipient == (if env.toEmail.Some? && env.toEmail.value != "" then env.toEmail.value
                               else env.defaultSender.value)
  {
    var to := Or(env.toEmail, env.defaultSender);
    if !Truthy(env.apiKey) || !Truthy(env.defaultSender) then Err(StartupError)
    else Ok(Config(env.apiKey.value, env.defaultSender.value, to.value))
  }
}
