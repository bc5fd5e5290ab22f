/** Reading the posted form into a submission and the two validation
    checks, the first failure winning. */
module Intake {
  import opened PyStr
  import opened Wrappers
  import opened Flash

  /** The posted form: field name to the submitted text. */
  type Form = map<string, string>

  /** The address component of `email.utils.parseaddr`, a library parser
      this model does not open. */
  type AddressParser = string -> string

  /** The form fields the handler reads, in its order; the first three are
      required. */
  const FieldKeys: seq<string> := ["full_name", "email", "phone", "dob", "gender", "course", "year", "address"]

  datatype Submission = Submission(
    fullName: string, email: string, phone: string, dob: string,
    gender: string, course: string, year: string, address: string)

  /** The field values in the order of `FieldKeys`. */
  function Values(sub: Submission): (vs: seq<string>)
    ensures |vs| == |FieldKeys|
  {
    [sub.fullName, sub.email, sub.phone, sub.dob, sub.gender, sub.course, sub.year, sub.address]
  }

  /** `request.form.get(key, "")`. */
  function FormGet(form: Form, key: string): string {
    if key in form then form[key] else ""
  }

  /** `request.form.get(FieldKeys[k], "").strip()`. */
  function FieldValue(form: Form, k: nat): string
    requires k < |FieldKeys|
  {
    Strip(FormGet(form, FieldKeys[k]))
  }

  /** The eight field reads, in the handler's order. */
  function ReadForm(form: Form): Submission {
    Submission(
      FieldValue(form, 0), FieldValue(form, 1), FieldValue(form, 2), FieldValue(form, 3),
      FieldValue(form, 4), FieldValue(form, 5), FieldValue(form, 6), FieldValue(form, 7))
  }

  /** Field `k` of the submission is the posted text of `FieldKeys[k]` with
      its surrounding whitespace removed, and empty when the form lacks
      that key. */
  lemma ReadFormField(form: Form, k: nat)
    requires k < |FieldKeys|
    ensures IsStripOf(Values(ReadForm(form))[k], FormGet(form, FieldKeys[k]))
    ensures FieldKeys[k] !in form ==> Values(ReadForm(form))[k] == ""
  {
    var sub := ReadForm(form);
    assert Values(sub)[k] == FieldValue(form, k) by {
      if k == 0 {} else if k == 1 {} else if k == 2 {} else if k == 3 {}
      else if k == 4 {} else if k == 5 {} else if k == 6 {} else {}
    }
    StripMeetsReference(FormGet(form, FieldKeys[k]));
    StripEmptyIff("");
  }

  /** `is_valid_email`: the parsed address contains an "@". */
  predicate IsValidEmail(addrOf: AddressParser, email: string) {
    '@' in addrOf(email)
  }

  /** The checks of the handler in order; `None` lets the submission through. */
  function Validate(sub: Submission, addrOf: AddressParser): (verdict: Option<Status>)
    ensures verdict == Some(Required) <==> sub.fullName == "" || sub.email == "" || sub.phone == ""
    ensures verdict == Some(InvalidEmail) <==>
      sub.fullName != "" && sub.email != "" && sub.phone != "" && !IsValidEmail(addrOf, sub.email)
    ensures verdict.None? <==>
      sub.fullName != "" && sub.email != "" && sub.phone != "" && IsValidEmail(addrOf, sub.email)
    ensures verdict == None || verdict == Some(Required) || verdict == Some(InvalidEmail)
  {
    if sub.fullName == "" || sub.email == "" || sub.phone == "" then Some(Required)
    else if !IsValidEmail(addrOf, sub.email) then Some(InvalidEmail)
    else None
  }

  /** A form is turned away as incomplete exactly when its name, email or
      phone field is missing or holds only whitespace. */
  lemma RequiredFieldsRejected(form: Form, addrOf: AddressParser)
    ensures Validate(ReadForm(form), addrOf) == Some(Required) <==>
      AllSpace(FormGet(form, FieldKeys[0])) || AllSpace(FormGet(form, FieldKeys[1])) || AllSpace(FormGet(form, FieldKeys[2]))
  {
    StripEmptyIff(FormGet(form, FieldKeys[0]));
    StripEmptyIff(FormGet(form, FieldKeys[1]));
    StripEmptyIff(FormGet(form, FieldKeys[2]));
  }

  /** With a parser that never invents an "@", a complete form whose email
      field holds no "@" is turned away as an invalid email. */
  lemma EmailWithoutAtRejected(form: Form, addrOf: AddressParser)
    requires forall e :: '@' in addrOf(e) ==> '@' in e
    requires !AllSpace(FormGet(form, FieldKeys[0])) && !AllSpace(FormGet(form, FieldKeys[2]))
    requires !AllSpace(FormGet(form, FieldKeys[1])) && '@' !in FormGet(form, FieldKeys[1])
    ensures Validate(ReadForm(form), addrOf) == Some(InvalidEmail)
  {
    RequiredFieldsRejected(form, addrOf);
    StripKeepsCharacters(FormGet(form, FieldKeys[1]), '@');
  }
}
