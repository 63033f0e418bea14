/**
 * The pure part of the contact form's POST handler (src/pages/api/contact.ts):
 * the required-field check, the email check, the composition of the mail and
 * the choice of HTTP response. Parsing the JSON body and sending the mail are
 * outside: a body that fails to parse arrives as `None`, and the transport's
 * answer arrives as a `Delivery`.
 */
module ContactRelay {
  import opened Options
  import opened Text
  import opened EmailSyntax

  /** The form fields of a parsed request body; `None` is an absent property. */
  datatype Submission = Submission(
    name: Option<string>,
    phoneNumber: Option<string>,
    email: Option<string>,
    company: Option<string>,
    message: Option<string>)

  /** JavaScript truthiness of an optional string: present and not empty. */
  predicate Truthy(field: Option<string>)
  {
    field.Some? && field.value != ""
  }

  /** `name`, `phoneNumber`, `email` and `message` are all truthy; `company` is optional. */
  predicate HasRequiredFields(s: Submission)
  {
    Truthy(s.name) && Truthy(s.phoneNumber) && Truthy(s.email) && Truthy(s.message)
  }

  /** The sender and recipient addresses, read from the environment. */
  datatype MailConfig = MailConfig(from: string, to: string)

  datatype Mail = Mail(from: string, to: string, replyTo: string, subject: string, html: string, text: string)

  /** The mail transport's answer: delivered, or an error whose detail is not shown. */
  datatype Delivery = Delivered | Failed(detail: string)

  /** The JSON bodies the handler writes. */
  datatype Body = ErrorBody(error: string) | SuccessBody(success: bool, message: string)

  datatype Response = Response(status: int, body: Body, contentType: string)

  const Json := "application/json"
  const MissingFields := Response(400, ErrorBody("Missing required fields"), Json)
  const InvalidEmail := Response(400, ErrorBody("Invalid email format"), Json)
  const Sent := Response(200, SuccessBody(true, "Email sent successfully"), Json)
  const SendFailed := Response(500, ErrorBody("Failed to send email. Please try again later."), Json)

  /** The response, and the mail handed to the transport if the handler got that far. */
  datatype Outcome = Outcome(response: Response, attempt: Option<Mail>)

  // ---------------------------------------------------------------------------
  // Mail composition

  function CompanyHtmlLine(company: string): string
  {
    "<p><strong>Company:</strong> " + company + "</p>"
  }

  function CompanyTextLine(company: string): string
  {
    "Company: " + company + "\n"
  }

  /** The message as HTML: every newline becomes `<br>`. */
  function HtmlMessage(message: string): string
  {
    ReplaceChar(message, '\n', "<br>")
  }

  // The fixed text around the name, phone and email in the HTML body.
  const HtmlNameLabel := "\n        <h2>New Contact Form Submission</h2>\n        <p><strong>Name:</strong> "
  const HtmlPhoneLabel := "</p>\n        <p><strong>Phone:</strong> "
  const HtmlEmailLabel := "</p>\n        <p><strong>Email:</strong> "
  const HtmlHeadEnd := "</p>\n        "

  /** The HTML body up to the optional company line. */
  function HtmlHead(name: string, phoneNumber: string, email: string): string
  {
    HtmlNameLabel + name + HtmlPhoneLabel + phoneNumber + HtmlEmailLabel + email + HtmlHeadEnd
  }

  /** The closing paragraph of the HTML body, holding the message. */
  function HtmlMessageParagraph(message: string): string
  {
    "<p>" + HtmlMessage(message) + "</p>\n      "
  }

  const HtmlMessageHeading := "\n        <p><strong>Message:</strong></p>\n        "

  /** The HTML body after the optional company line. */
  function HtmlTail(message: string): string
  {
    HtmlMessageHeading + HtmlMessageParagraph(message)
  }

  function HtmlCompany(company: Option<string>): string
  {
    if Truthy(company) then CompanyHtmlLine(company.value) else ""
  }

  function HtmlBody(name: string, phoneNumber: string, email: string, company: Option<string>, message: string): string
  {
    HtmlHead(name, phoneNumber, email) + HtmlCompany(company) + HtmlTail(message)
  }

  // The fixed text around the name, phone and email in the text body.
  const TextNameLabel := "\nNew Contact Form Submission\n\nName: "
  const TextPhoneLabel := "\nPhone: "
  const TextEmailLabel := "\nEmail: "
  const TextHeadEnd := "\n"

  /** The text body up to the optional company line. */
  function TextHead(name: string, phoneNumber: string, email: string): string
  {
    TextNameLabel + name + TextPhoneLabel + phoneNumber + TextEmailLabel + email + TextHeadEnd
  }

  /** The end of the text body: the message as typed. */
  function TextTail(message: string): string
  {
    "\nMessage:\n" + message + "\n      "
  }

  function TextCompany(company: Option<string>): string
  {
    if Truthy(company) then CompanyTextLine(company.value) else ""
  }

  function TextBody(name: string, phoneNumber: string, email: string, company: Option<string>, message: string): string
  {
    TextHead(name, phoneNumber, email) + TextCompany(company) + TextTail(message)
  }

  /**
   * `mailOptions`: replies go to the submitter, the subject names them, the text
   * body ends with the message as typed and the HTML body with the message
   * after its newlines were rewritten.
   */
  function ComposeMail(config: MailConfig, name: string, phoneNumber: string, email: string,
                       company: Option<string>, message: string): (mail: Mail)
    ensures mail.from == config.from && mail.to == config.to
    ensures mail.replyTo == email
    ensures mail.subject == "New Contact Form Submission from " + name
    ensures StartsWith(mail.html, HtmlHead(name, phoneNumber, email))
    ensures StartsWith(mail.text, TextHead(name, phoneNumber, email))
    ensures EndsWith(mail.text, "\nMessage:\n" + message + "\n      ")
    ensures EndsWith(mail.html, "<p>" + Join(Split(message, '\n'), "<br>") + "</p>\n      ")
    ensures '\n' !in HtmlMessage(message)
  {
    ReplaceCharIsSplitJoin(message, '\n', "<br>");
    ReplaceCharRemoves(message, '\n', "<br>");
    var html := HtmlBody(name, phoneNumber, email, company, message);
    var text := TextBody(name, phoneNumber, email, company, message);
    ConcatEnds(HtmlHead(name, phoneNumber, email) + HtmlCompany(company), HtmlTail(message));
    ConcatEnds(HtmlMessageHeading, HtmlMessageParagraph(message));
    EndsWithTransitive(html, HtmlTail(message), HtmlMessageParagraph(message));
    ConcatEnds(TextHead(name, phoneNumber, email) + TextCompany(company), TextTail(message));
    ConcatEnds(HtmlHead(name, phoneNumber, email), HtmlCompany(company));
    StartsWithTransitive(html, HtmlHead(name, phoneNumber, email) + HtmlCompany(company), HtmlHead(name, phoneNumber, email));
    ConcatEnds(TextHead(name, phoneNumber, email), TextCompany(company));
    StartsWithTransitive(text, TextHead(name, phoneNumber, email) + TextCompany(company), TextHead(name, phoneNumber, email));
    Mail(config.from, config.to, email, "New Contact Form Submission from " + name, html, text)
  }

  /**
   * Both bodies carry the submitter's name, phone and email, each right after
   * its label.
   */
  lemma MailCarriesContactDetails(config: MailConfig, name: string, phoneNumber: string, email: string,
                                  company: Option<string>, message: string)
    ensures var mail := ComposeMail(config, name, phoneNumber, email, company, message);
            var i := |HtmlNameLabel|;
            var j := i + |name| + |HtmlPhoneLabel|;
            var k := j + |phoneNumber| + |HtmlEmailLabel|;
            && k + |email| <= |mail.html|
            && mail.html[i..i + |name|] == name
            && mail.html[j..j + |phoneNumber|] == phoneNumber
            && mail.html[k..k + |email|] == email
    ensures var mail := ComposeMail(config, name, phoneNumber, email, company, message);
            var i := |TextNameLabel|;
            var j := i + |name| + |TextPhoneLabel|;
            var k := j + |phoneNumber| + |TextEmailLabel|;
            && k + |email| <= |mail.text|
            && mail.text[i..i + |name|] == name
            && mail.text[j..j + |phoneNumber|] == phoneNumber
            && mail.text[k..k + |email|] == email
  {
    var mail := ComposeMail(config, name, phoneNumber, email, company, message);
    HtmlCarriesFields(mail.html, name, phoneNumber, email);
    TextCarriesFields(mail.text, name, phoneNumber, email);
  }

  /** Any HTML body starting with the head carries the fields after their labels. */
  lemma HtmlCarriesFields(html: string, name: string, phoneNumber: string, email: string)
    requires StartsWith(html, HtmlHead(name, phoneNumber, email))
    ensures var i := |HtmlNameLabel|;
            var j := i + |name| + |HtmlPhoneLabel|;
            var k := j + |phoneNumber| + |HtmlEmailLabel|;
            && k + |email| <= |html|
            && html[i..i + |name|] == name
            && html[j..j + |phoneNumber|] == phoneNumber
            && html[k..k + |email|] == email
  {
    HeadCarriesFields(html, HtmlNameLabel, name, HtmlPhoneLabel, phoneNumber, HtmlEmailLabel, email, HtmlHeadEnd);
  }

  /** Any text body starting with the head carries the fields after their labels. */
  lemma TextCarriesFields(text: string, name: string, phoneNumber: string, email: string)
    requires StartsWith(text, TextHead(name, phoneNumber, email))
    ensures var i := |TextNameLabel|;
            var j := i + |name| + |TextPhoneLabel|;
            var k := j + |phoneNumber| + |TextEmailLabel|;
            && k + |email| <= |text|
            && text[i..i + |name|] == name
            && text[j..j + |phoneNumber|] == phoneNumber
            && text[k..k + |email|] == email
  {
    HeadCarriesFields(text, TextNameLabel, name, TextPhoneLabel, phoneNumber, TextEmailLabel, email, TextHeadEnd);
  }

  /** A string starting with `l1 + x + l2 + y + l3 + z + l4` has the three fields after their labels. */
  lemma HeadCarriesFields(s: string, l1: string, x: string, l2: string, y: string, l3: string, z: string, l4: string)
    requires StartsWith(s, l1 + x + l2 + y + l3 + z + l4)
    ensures var i := |l1|;
            var j := i + |x| + |l2|;
            var k := j + |y| + |l3|;
            && k + |z| <= |s|
            && s[i..i + |x|] == x && s[j..j + |y|] == y && s[k..k + |z|] == z
  {
    var head := l1 + x + l2 + y + l3 + z + l4;
    FieldsAt(l1, x, l2, y, l3, z, l4);
    var i := |l1|;
    var j := i + |x| + |l2|;
    var k := j + |y| + |l3|;
    PrefixSlice(s, head, i, i + |x|);
    PrefixSlice(s, head, j, j + |y|);
    PrefixSlice(s, head, k, k + |z|);
  }

  /** The three fields of `l1 + x + l2 + y + l3 + z + l4` sit after their labels. */
  lemma FieldsAt(l1: string, x: string, l2: string, y: string, l3: string, z: string, l4: string)
    ensures var s := l1 + x + l2 + y + l3 + z + l4;
            var i := |l1|;
            var j := i + |x| + |l2|;
            var k := j + |y| + |l3|;
            && k + |z| <= |s|
            && s[i..i + |x|] == x && s[j..j + |y|] == y && s[k..k + |z|] == z
  {
  }

  /** Slices inside a prefix are slices of the whole. */
  lemma PrefixSlice(s: string, prefix: string, a: nat, b: nat)
    requires StartsWith(s, prefix)
    requires a <= b <= |prefix|
    ensures s[a..b] == prefix[a..b]
  {
    assert forall i :: a <= i < b ==> s[i] == s[..|prefix|][i];
  }

  /** A falsy company gives the same mail as no company at all. */
  lemma FalsyCompanyIgnored(config: MailConfig, name: string, phoneNumber: string, email: string,
                            company: Option<string>, message: string)
    requires !Truthy(company)
    ensures ComposeMail(config, name, phoneNumber, email, company, message) ==
            ComposeMail(config, name, phoneNumber, email, None, message)
  {
  }

  /**
   * A truthy company inserts its line into each body of the mail a submission
   * without a company gets, right after the email line, and changes nothing else.
   */
  lemma CompanyLineInserted(config: MailConfig, name: string, phoneNumber: string, email: string,
                            company: string, message: string)
    requires company != ""
    ensures var with := ComposeMail(config, name, phoneNumber, email, Some(company), message);
            var without := ComposeMail(config, name, phoneNumber, email, None, message);
            var k := |HtmlHead(name, phoneNumber, email)|;
            var m := |TextHead(name, phoneNumber, email)|;
            && with.(html := without.html, text := without.text) == without
            && k <= |without.html| && m <= |without.text|
            && with.html == without.html[..k] + CompanyHtmlLine(company) + without.html[k..]
            && with.text == without.text[..m] + CompanyTextLine(company) + without.text[m..]
  {
    HtmlCompanyInserted(name, phoneNumber, email, company, message);
    TextCompanyInserted(name, phoneNumber, email, company, message);
  }

  /** The HTML company line goes between the head and the tail. */
  lemma HtmlCompanyInserted(name: string, phoneNumber: string, email: string, company: string, message: string)
    requires company != ""
    ensures var without := HtmlBody(name, phoneNumber, email, None, message);
            var k := |HtmlHead(name, phoneNumber, email)|;
            && k <= |without|
            && HtmlBody(name, phoneNumber, email, Some(company), message) ==
                 without[..k] + CompanyHtmlLine(company) + without[k..]
  {
    var head := HtmlHead(name, phoneNumber, email);
    var tail := HtmlTail(message);
    assert HtmlBody(name, phoneNumber, email, None, message) == head + tail;
    Insertion(head, CompanyHtmlLine(company), tail);
  }

  /** The text company line goes between the head and the tail. */
  lemma TextCompanyInserted(name: string, phoneNumber: string, email: string, company: string, message: string)
    requires company != ""
    ensures var without := TextBody(name, phoneNumber, email, None, message);
            var m := |TextHead(name, phoneNumber, email)|;
            && m <= |without|
            && TextBody(name, phoneNumber, email, Some(company), message) ==
                 without[..m] + CompanyTextLine(company) + without[m..]
  {
    var head := TextHead(name, phoneNumber, email);
    var tail := TextTail(message);
    assert TextBody(name, phoneNumber, email, None, message) == head + tail;
    Insertion(head, CompanyTextLine(company), tail);
  }

  /** `head + line + tail` is `line` inserted into `head + tail` at `|head|`. */
  lemma Insertion(head: string, line: string, tail: string)
    ensures head + line + tail == (head + tail)[..|head|] + line + (head + tail)[|head|..]
  {
    var whole := head + tail;
    assert whole[..|head|] == head && whole[|head|..] == tail;
  }

  // ---------------------------------------------------------------------------
  // The handler

  /**
   * The POST handler. `request` is the parsed body (`None` when parsing threw);
   * `delivery` is what the transport answers if the mail is handed to it.
   */
  function Handle(config: MailConfig, request: Option<Submission>, delivery: Delivery): (out: Outcome)
    ensures out.response.contentType == Json
    ensures request.None? ==> out == Outcome(SendFailed, None)
    ensures request.Some? && !HasRequiredFields(request.value) ==> out == Outcome(MissingFields, None)
    ensures request.Some? && HasRequiredFields(request.value) && !MatchesEmailPattern(request.value.email.value) ==>
              out == Outcome(InvalidEmail, None)
    ensures out.attempt.Some? <==>
              request.Some? && HasRequiredFields(request.value) && MatchesEmailPattern(request.value.email.value)
    ensures out.attempt.Some? ==>
              && out.attempt.value.replyTo == request.value.email.value
              && out.attempt.value.subject == "New Contact Form Submission from " + request.value.name.value
              && (out.response == Sent <==> delivery.Delivered?)
              && (out.response == SendFailed <==> delivery.Failed?)
    ensures out.response.status == 200 <==> out.attempt.Some? && delivery.Delivered?
  {
    match request
    case None => Outcome(SendFailed, None)
    case Some(s) =>
      if !HasRequiredFields(s) then Outcome(MissingFields, None)
      else
        ValidEmailIffPattern(s.email.value);
        if !IsValidEmail(s.email.value) then Outcome(InvalidEmail, None)
        else
          var mail := ComposeMail(config, s.name.value, s.phoneNumber.value, s.email.value, s.company, s.message.value);
          Outcome(if delivery.Delivered? then Sent else SendFailed, Some(mail))
  }

  /** A failed delivery reads the same whatever the transport's error was. */
  lemma FailureDetailHidden(config: MailConfig, request: Option<Submission>, d1: string, d2: string)
    ensures Handle(config, request, Failed(d1)) == Handle(config, request, Failed(d2))
    ensures Handle(config, request, Failed(d1)).response.status != 200
  {
  }

  /** A complete submission with a malformed email is refused before any mail is sent. */
  lemma BadEmailRefused(config: MailConfig, delivery: Delivery)
    ensures Handle(config, Some(Submission(Some("A"), Some("1"), Some("bad"), None, Some("hi"))), delivery)
            == Outcome(InvalidEmail, None)
  {
    RejectsWithoutAt();
  }

  /** The field check comes first: a missing message wins over a malformed email. */
  lemma MissingFieldWinsOverBadEmail(config: MailConfig, delivery: Delivery)
    ensures Handle(config, Some(Submission(Some("A"), Some("1"), Some("bad"), None, None)), delivery)
            == Outcome(MissingFields, None)
    ensures Handle(config, Some(Submission(Some("A"), Some("1"), Some("bad"), Some("Acme"), Some(""))), delivery)
            == Outcome(MissingFields, None)
  {
  }

  /**
   * A complete submission whose email passes the handler's rule is mailed once,
   * with the composed mail, and the answer follows the delivery.
   */
  lemma ValidSubmissionMailed(config: MailConfig, s: Submission, delivery: Delivery)
    requires HasRequiredFields(s) && IsValidEmail(s.email.value)
    ensures Handle(config, Some(s), delivery) ==
              Outcome(if delivery.Delivered? then Sent else SendFailed,
                      Some(ComposeMail(config, s.name.value, s.phoneNumber.value, s.email.value, s.company, s.message.value)))
  {
  }
}
