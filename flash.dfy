/** The one-shot status messages the registration handler flashes before it
    redirects back to the form, with their Flask categories. */
module Flash {

  datatype Category = Success | Warning

  datatype Status = Status(category: Category, text: string)

  const RequiredText := "Full Name, Email, and Phone are required."
  const InvalidEmailText := "Invalid email format."
  const SentText := "Registration submitted successfully! Email sent."
  const UnauthorizedText := "Registration saved, but email failed: Unauthorized (check API key)."
  /** Start of the warning for any other HTTP status: the code follows. */
  const ProviderFailurePrefix := "Registration saved, but email failed ("
  /** Start of the warning for an exception raised by the call. */
  const TransportFailurePrefix := "Registration saved, but email failed: "

  const Required := Status(Warning, RequiredText)
  const InvalidEmail := Status(Warning, InvalidEmailText)
}
