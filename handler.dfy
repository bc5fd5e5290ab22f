/** The `register` view: GET renders the form; POST reads the form,
    validates it, sends at most one e-mail and always redirects back with
    one flashed status. */
module Handler {
  import opened Wrappers
  import opened Flash
  import opened Settings
  import opened Intake
  import opened Message
  import opened Delivery

  datatype Request = Get | Post(form: Form)

  /** What the view returns: the rendered form page, or a redirect to the
      form carrying the flashed status for the next render. */
  datatype Reply =
    | Render(template: string)
    | Redirect(location: string, flash: Status)

  const FormTemplate := "register.html"
  /** `url_for("register")`: the view is mounted at the root. */
  const FormPath := "/"

  /** Runs the view once. `addrOf` stands for `parseaddr(...)[1]` and
      `provider` for the provider's answer to a request; `sent` lists the
      requests posted to the provider. */
  method Register(request: Request, cfg: Config, addrOf: AddressParser, provider: EmailRequest -> DeliveryOutcome)
    returns (reply: Reply, sent: seq<EmailRequest>)
    ensures request.Get? ==> reply == Render(FormTemplate) && sent == []
    ensures request.Post? ==> reply.Redirect? && reply.location == FormPath && |sent| <= 1
    ensures request.Post? ==>
      var sub := ReadForm(request.form);
      match Validate(sub, addrOf)
      case Some(warning) => sent == [] && reply.flash == warning
      case None => sent == [Compose(cfg, sub)] && reply.flash == Classify(provider(sent[0]))
    ensures forall k :: 0 <= k < |sent| ==>
      && sent[k].sender == Sender(SenderName, cfg.sender)
      && sent[k].to == [cfg.recipient]
      && sent[k].subject == Subject
      && sent[k].apiKey == cfg.apiKey
      && sent[k].textContent == Body(ReadForm(request.form))
  {
    if request.Get? {
      return Render(FormTemplate), [];
    }
    var form := request.form;
    var fullName := FieldValue(form, 0);
    var email := FieldValue(form, 1);
    var phone := FieldValue(form, 2);
    var dob := FieldValue(form, 3);
    var gender := FieldValue(form, 4);
    var course := FieldValue(form, 5);
    var year := FieldValue(form, 6);
    var address := FieldValue(form, 7);

    if fullName == "" || email == "" || phone == "" {
      return Redirect(FormPath, Required), [];
    }
    if !IsValidEmail(addrOf, email) {
      return Redirect(FormPath, InvalidEmail), [];
    }

    var sub := Submission(fullName, email, phone, dob, gender, course, year, address);
    var req := Compose(cfg, sub);
    var outcome := provider(req);
    sent := [req];
    reply := Redirect(FormPath, Classify(outcome));
  }
}
