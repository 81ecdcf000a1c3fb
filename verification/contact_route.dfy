/** `POST /api/contact`: checks the three fields, composes the notification
    mail and answers with the outcome. The mail transport is a parameter:
    whether `sendMail` resolved. */
module ContactRoute {
  import opened Js
  import opened Text
  import opened CheckoutClient

  /** The request body: the JSON object's three fields, or a body whose
      parsing or destructuring throws. */
  datatype Request = Fields(name: Option<string>, email: Option<string>, message: Option<string>) | Malformed

  /** The mail handed to the transport. */
  datatype Mail = Mail(from: string, to: string, replyTo: string, subject: string, text: string)

  /** The route's effect: the mail it tried to send, if any, and its response. */
  datatype RouteOutcome = RouteOutcome(mail: Option<Mail>, response: Response)

  const Recipient := "xatom_space@naver.com"
  const FieldsRequired := "All fields are required."
  const SendFailed := "Failed to send message."

  /** Every field is truthy: present and non-empty. No trimming is done. */
  predicate Complete(req: Request)
    requires req.Fields?
  {
    Truthy(req.name) && Truthy(req.email) && Truthy(req.message)
  }

  const SubjectPrefix := "[xatom Contact] "

  /** The mail subject: the fixed prefix, then the sender's name. */
  function Subject(name: string): (r: string)
    ensures StripPrefix(r, SubjectPrefix) == Some(name)
  {
    StripPrefixOfConcat(SubjectPrefix, name);
    SubjectPrefix + name
  }

  /** The mail text: labelled name and email lines, then the message. It
      carries the three fields recoverably when name and email are single
      lines (the message may span several). */
  function MailText(name: string, email: string, message: string): (text: string)
    ensures '\n' !in name && '\n' !in email ==> ParseMailText(text) == Some((name, email, message))
  {
    var r2 := email + ("\n\nMessage:\n" + (message + "\n"));
    var text := "Name: " + (name + ("\nEmail: " + r2));
    if '\n' !in name && '\n' !in email then
      var r1 := "Email: " + r2;
      StripPrefixOfConcat("Name: ", name + ("\nEmail: " + r2));
      assert "\nEmail: " + r2 == ['\n'] + r1;
      SplitAtFirst(name, '\n', r1);
      StripPrefixOfConcat("Email: ", r2);
      EmailAndMessageRoundTrip(name, email, message);
      text
    else
      text
  }

  /** The mail for a complete request; `EMAIL_USER` is `emailUser`. */
  function Compose(name: string, email: string, message: string, emailUser: Option<string>): (m: Mail)
    ensures m.to == Recipient && m.replyTo == email
    ensures m.from == "\"xatom.space Contact\" <" + Interpolate(emailUser) + ">"
    ensures m.subject == Subject(name) && m.text == MailText(name, email, message)
  {
    Mail("\"xatom.space Contact\" <" + Interpolate(emailUser) + ">", Recipient, email, Subject(name), MailText(name, email, message))
  }

  /** The handler, with `sent` telling whether `sendMail` resolved. */
  function Post(req: Request, emailUser: Option<string>, sent: bool): (o: RouteOutcome)
    ensures req.Malformed? ==> o == RouteOutcome(None, Response(500, ErrorJson(SendFailed)))
    ensures req.Fields? && !Complete(req) ==> o == RouteOutcome(None, Response(400, ErrorJson(FieldsRequired)))
    ensures o.mail.Some? <==> req.Fields? && Complete(req)
    ensures o.mail.Some? ==>
              && o.mail.value == Compose(req.name.value, req.email.value, req.message.value, emailUser)
              && o.response == (if sent then Response(200, MessageJson("ok")) else Response(500, ErrorJson(SendFailed)))
  {
    match req
    case Malformed => RouteOutcome(None, Response(500, ErrorJson(SendFailed)))
    case Fields(name, email, message) =>
      if !Truthy(name) || !Truthy(email) || !Truthy(message) then
        RouteOutcome(None, Response(400, ErrorJson(FieldsRequired)))
      else
        var mail := Compose(name.value, email.value, message.value, emailUser);
        RouteOutcome(Some(mail), if sent then Response(200, MessageJson("ok")) else Response(500, ErrorJson(SendFailed)))
  }

  /** Whitespace-only fields are accepted: validation does not trim. */
  lemma WhitespaceAccepted(name: string, email: string, message: string, emailUser: Option<string>, sent: bool)
    requires |name| > 0 && |email| > 0 && |message| > 0
    requires forall c :: c in name + email + message ==> c in " \t\n\r"
    ensures Post(Fields(Some(name), Some(email), Some(message)), emailUser, sent).mail.Some?
  {
  }

  /** A field that is missing or empty. */
  predicate Blank(v: Option<string>) {
    v == None || v == Some("")
  }

  /** An empty or missing field, whichever it is, is rejected with 400 and no mail. */
  lemma EmptyFieldRejected(name: Option<string>, email: Option<string>, message: Option<string>, emailUser: Option<string>, sent: bool)
    requires Blank(name) || Blank(email) || Blank(message)
    ensures Post(Fields(name, email, message), emailUser, sent) == RouteOutcome(None, Response(400, ErrorJson(FieldsRequired)))
  {
  }

  /** Reads a mail text back into name, email and message. */
  function ParseMailText(text: string): Option<(string, string, string)> {
    match StripPrefix(text, "Name: ")
    case None => None
    case Some(r0) =>
      match SplitAt(r0, '\n')
      case None => None
      case Some((name, r1)) =>
        match StripPrefix(r1, "Email: ")
        case None => None
        case Some(r2) => ParseEmailAndMessage(name, r2)
  }

  function ParseEmailAndMessage(name: string, r2: string): Option<(string, string, string)> {
    match SplitAt(r2, '\n')
    case None => None
    case Some((email, r3)) =>
      match StripPrefix(r3, "\nMessage:\n")
      case None => None
      case Some(r4) =>
        if |r4| > 0 && r4[|r4| - 1] == '\n' then Some((name, email, r4[..|r4| - 1])) else None
  }

  lemma EmailAndMessageRoundTrip(name: string, email: string, message: string)
    requires '\n' !in email
    ensures ParseEmailAndMessage(name, email + ("\n\nMessage:\n" + (message + "\n"))) == Some((name, email, message))
  {
    var r4 := message + "\n";
    assert "\n\nMessage:\n" + r4 == ['\n'] + ("\nMessage:\n" + r4);
    SplitAtFirst(email, '\n', "\nMessage:\n" + r4);
    StripPrefixOfConcat("\nMessage:\n", r4);
    assert r4[..|r4| - 1] == message;
  }
}
