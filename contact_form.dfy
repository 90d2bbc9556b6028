/** The validation of the `/submit` contact form handler. */
module ContactForm {
  import opened Wrappers
  import opened JsText
  import opened EmailFormat
  import Registration

  datatype SubmitBody = SubmitBody(name: Option<string>, email: Option<string>, message: Option<string>)

  datatype SubmitReason = MissingFields | InvalidEmail | Accepted

  /** Status code, the `success` flag of the JSON body and which message it carries. */
  datatype SubmitReply = SubmitReply(status: int, success: bool, reason: SubmitReason)

  /** The handler's straight-line checks: a falsy field, then the email pattern. */
  function Submit(b: SubmitBody): (r: SubmitReply)
    ensures r.success <==> r.status == 200
    ensures r.status == 200 || r.status == 400
    ensures r.reason == MissingFields <==> !(Truthy(b.name) && Truthy(b.email) && Truthy(b.message))
    ensures r.reason == InvalidEmail <==>
      Truthy(b.name) && Truthy(b.email) && Truthy(b.message) && !EmailShape(b.email.value)
    ensures r.reason == Accepted <==>
      Truthy(b.name) && Truthy(b.email) && Truthy(b.message) && EmailShape(b.email.value)
  {
    if !(Truthy(b.name) && Truthy(b.email) && Truthy(b.message)) then
      SubmitReply(400, false, MissingFields)
    else if !MatchesEmailPattern(b.email.value) then
      PatternIffShape(b.email.value);
      SubmitReply(400, false, InvalidEmail)
    else
      PatternIffShape(b.email.value);
      SubmitReply(200, true, Accepted)
  }

  /** The contact form and registration use the same pattern, so with every
      field present they accept and reject the same addresses. */
  lemma AgreesWithRegistration(name: string, email: string, message: string, password: string)
    requires name != "" && email != "" && message != "" && password != ""
    ensures var f := Submit(SubmitBody(Some(name), Some(email), Some(message)));
      var g := Registration.Precheck(Registration.RegisterBody(Some(name), Some(email), Some(password)));
      f.reason == InvalidEmail <==> g == Some(Registration.InvalidEmail)
  {
    Registration.PrecheckOutcomes(Registration.RegisterBody(Some(name), Some(email), Some(password)));
  }

  /** The form's own example: `{name: "A", email: "a@a.com", message: "hi"}` is accepted. */
  lemma AcceptsExampleSubmission()
    ensures Submit(SubmitBody(Some("A"), Some("a@a.com"), Some("hi"))) == SubmitReply(200, true, Accepted)
  {
    AcceptsExampleAddress();
  }
}
