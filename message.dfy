/** The e-mail the handler sends for an accepted submission: the plain-text
    body, and the provider request that carries it. */
module Message {
  import opened Wrappers
  import opened PyStr
  import opened Intake
  import Settings

  const Subject := "New Student Registration"
  const Header := "New Student Registration"
  const SenderName := "Aura Institute"
  const ProviderUrl := "https://api.brevo.com/v3/smtp/email"
  const ContentType := "application/json"

  /** The labels of the body lines, in the order of `FieldKeys`. */
  const Labels: seq<string> := ["Full Name", "Email", "Phone", "DOB", "Gender", "Course", "Year", "Address"]

  /** The triple-quoted f-string of the handler: it opens with a newline,
      then the header, a blank line, one labelled line per field and a final
      newline. */
  function Body(sub: Submission): string {
    "\n" + Header + "\n\nFull Name: " + sub.fullName
    + "\nEmail: " + sub.email
    + "\nPhone: " + sub.phone
    + "\nDOB: " + sub.dob
    + "\nGender: " + sub.gender
    + "\nCourse: " + sub.course
    + "\nYear: " + sub.year
    + "\nAddress: " + sub.address + "\n"
  }

  function LabelledLine(name: string, value: string): string {
    name + ": " + value
  }

  /** The lines the body is meant to have: empty, header, empty, then
      `Label: value` for every field in the fixed order, empty values
      included. */
  function BodyLines(sub: Submission): (ls: seq<string>)
    ensures |ls| == 3 + |Labels|
  {
    ["", Header, ""] + seq(|Labels|, k requires 0 <= k < |Labels| => LabelledLine(Labels[k], Values(sub)[k]))
  }

  /** The f-string and the intended lines are the same text: each prefix
      of the f-string up to the end of a line is the previous prefix, a line
      break and that line. */
  lemma BodyIsLines(sub: Submission)
    ensures Body(sub) == Unlines(BodyLines(sub))
  {
    var ls := BodyLines(sub);
    var q3 := "\n" + Header + "\n\nFull Name: " + sub.fullName;
    var q4 := q3 + "\nEmail: " + sub.email;
    var q5 := q4 + "\nPhone: " + sub.phone;
    var q6 := q5 + "\nDOB: " + sub.dob;
    var q7 := q6 + "\nGender: " + sub.gender;
    var q8 := q7 + "\nCourse: " + sub.course;
    var q9 := q8 + "\nYear: " + sub.year;
    var q10 := q9 + "\nAddress: " + sub.address;
    assert ls[..3] == ["", Header, ""];
    LineJoin("\n" + Header + "\n", "\nFull Name: ", ls[3], "Full Name", sub.fullName);
    LineJoin(q3, "\nEmail: ", ls[4], "Email", sub.email);
    LineJoin(q4, "\nPhone: ", ls[5], "Phone", sub.phone);
    LineJoin(q5, "\nDOB: ", ls[6], "DOB", sub.dob);
    LineJoin(q6, "\nGender: ", ls[7], "Gender", sub.gender);
    LineJoin(q7, "\nCourse: ", ls[8], "Course", sub.course);
    LineJoin(q8, "\nYear: ", ls[9], "Year", sub.year);
    LineJoin(q9, "\nAddress: ", ls[10], "Address", sub.address);
    var qs := ["", "\n" + Header, "\n" + Header + "\n", q3, q4, q5, q6, q7, q8, q9, q10];
    forall j | 1 <= j < |ls| ensures qs[j] == qs[j - 1] + "\n" + ls[j] {
      if j == 1 {} else if j == 2 {} else if j == 3 {} else if j == 4 {} else if j == 5 {}
      else if j == 6 {} else if j == 7 {} else if j == 8 {} else if j == 9 {} else {}
    }
    UnlinesChain(ls, qs);
  }

  /** Appending a line break and the line `name: value` appends the
      f-string's `"\nname: "` piece and the value. */
  lemma LineJoin(q: string, tag: string, line: string, name: string, value: string)
    requires tag == "\n" + name + ": " && line == name + ": " + value
    ensures q + tag + value == q + "\n" + line
  {
  }

  /** Reads a `Label: value` line back, when it carries that label. */
  function Unlabel(line: string, name: string): Option<string> {
    if name + ": " <= line then Some(line[|name| + 2..]) else None
  }

  /** Recovers the submission from the lines of a body laid out as
      `BodyLines`. */
  function ParseLines(ls: seq<string>): Option<Submission> {
    if |ls| != 11 || ls[0] != "" || ls[1] != Header || ls[2] != "" then None
    else
      var vs := seq(8, k requires 0 <= k < 8 => Unlabel(ls[3 + k], Labels[k]));
      if forall k :: 0 <= k < 8 ==> vs[k].Some? then
        Some(Submission(vs[0].value, vs[1].value, vs[2].value, vs[3].value,
                        vs[4].value, vs[5].value, vs[6].value, vs[7].value))
      else None
  }

  function ParseBody(body: string): Option<Submission> {
    ParseLines(SplitLines(body))
  }

  lemma {:induction false} ParseBodyLines(sub: Submission)
    ensures ParseLines(BodyLines(sub)) == Some(sub)
  {
    var ls := BodyLines(sub);
    var vs := seq(8, k requires 0 <= k < 8 => Unlabel(ls[3 + k], Labels[k]));
    forall k | 0 <= k < 8 ensures vs[k] == Some(Values(sub)[k]) {
      var p := Labels[k] + ": ";
      assert ls[3 + k] == p + Values(sub)[k];
      assert (p + Values(sub)[k])[|p|..] == Values(sub)[k];
    }
    assert ls[..3] == ["", Header, ""];
  }

  /** When no field value holds a line break, the body has exactly the
      intended lines and gives the submission back. */
  lemma BodyRoundTrip(sub: Submission)
    requires forall k :: 0 <= k < |FieldKeys| ==> NoNewline(Values(sub)[k])
    ensures SplitLines(Body(sub)) == BodyLines(sub)
    ensures ParseBody(Body(sub)) == Some(sub)
  {
    var ls := BodyLines(sub);
    BodyIsLines(sub);
    forall k | 0 <= k < |ls| ensures NoNewline(ls[k]) {
      if k >= 3 {
        assert ls[k] == Labels[k - 3] + ": " + Values(sub)[k - 3];
      }
    }
    SplitUnlines(ls);
    ParseBodyLines(sub);
  }

  /** The JSON request to the provider: the `api-key` and `Content-Type`
      headers, then sender, recipients, subject and text content. */
  datatype Sender = Sender(name: string, email: string)

  datatype EmailRequest = EmailRequest(
    url: string, apiKey: string, contentType: string,
    sender: Sender, to: seq<string>, subject: string, textContent: string)

  function Compose(cfg: Settings.Config, sub: Submission): EmailRequest {
    EmailRequest(ProviderUrl, cfg.apiKey, ContentType,
      Sender(SenderName, cfg.sender), [cfg.recipient], Subject, Body(sub))
  }
}
