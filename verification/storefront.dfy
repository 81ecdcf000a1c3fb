/** The single-page storefront: its Buy button handler, which posts an
    empty checkout request, and its contact form handler, which falls back
    to a pre-filled `mailto:` link whenever sending fails. */
module Storefront {
  import opened Js
  import opened CheckoutClient
  import opened Text
  import UriComponent
  import ContactRoute

  /** The page's flags and status line. */
  datatype Home = Home(buying: bool, sending: bool, status: string)

  const InitialHome := Home(false, false, "")

  /** One run of `handleBuy`: state while outstanding, the body posted
      (none), state after, and where the browser is sent. */
  datatype HomeBuyRun = HomeBuyRun(pending: Home, body: Option<CheckoutBody>, final: Home, navigate: Option<string>)

  /** `handleBuy`. Unlike the product page it does not clear the status
      first, so a success keeps whatever status was showing. */
  function HandleBuy(h: Home, f: Fetched): (r: HomeBuyRun)
    ensures r.pending == h.(buying := true)
    ensures r.body.None?
    ensures !r.final.buying && r.final.sending == h.sending
    ensures r.navigate.Some? <==> Succeeded(f)
    ensures r.navigate.Some? ==> r.navigate.value == f.reply.body.data.url.value && r.final.status == h.status
    ensures r.navigate.None? ==> r.final.status != ""
    ensures r.navigate.None? && f.Delivered? && f.reply.body.Parsed? ==>
              r.final.status == Or(f.reply.body.data.error, CheckoutFailed)
    ensures r.navigate.None? && f.Rejected? ==> r.final.status == Or(Some(f.reason), CheckoutFailed)
    ensures r.navigate.None? && f.Delivered? && f.reply.body.Unparsable? ==>
              r.final.status == Or(Some(f.reply.body.reason), CheckoutFailed)
  {
    var pending := h.(buying := true);
    match ClassifyCheckout(f)
    case Navigate(url) => HomeBuyRun(pending, None, pending.(buying := false), Some(url))
    case ShowStatus(message) => HomeBuyRun(pending, None, pending.(status := message, buying := false), None)
  }

  /** The contact form's three values as `FormData` reads them. */
  datatype Form = Form(name: string, email: string, message: string)

  const MessageSendFailed := "Message send failed."
  const MessageSent := "Message sent."
  const FallbackOpened := "Contact fallback opened."
  const DefaultContactTo := "hello@xatom.space"
  const MailSubject := "[xatom.space] Contact"

  /** The JSON the form posts: exactly its three fields, so it passes the
      route's validation exactly when none of them is empty. */
  function Payload(form: Form): (r: ContactRoute.Request)
    ensures r == ContactRoute.Fields(Some(form.name), Some(form.email), Some(form.message))
    ensures ContactRoute.Complete(r) <==> form.name != "" && form.email != "" && form.message != ""
  {
    ContactRoute.Fields(Some(form.name), Some(form.email), Some(form.message))
  }

  /** The contact request went through: an ok response with a JSON body. */
  predicate ContactSucceeded(f: Fetched) {
    f.Delivered? && f.reply.ok && f.reply.body.Parsed?
  }

  /** The message of the exception a failed send ends in. */
  function ContactError(f: Fetched): string
    requires !ContactSucceeded(f)
  {
    match f
    case Rejected(reason) => reason
    case Delivered(Reply(_, Unparsable(reason))) => reason
    case Delivered(Reply(_, Parsed(data))) => Or(data.error, MessageSendFailed)
  }

  /** The fallback mail's body: name, email, a blank line, the message.
      It reads back as the form when name and email are single lines. */
  function MailBody(form: Form): (body: string)
    ensures '\n' !in form.name && '\n' !in form.email ==> ParseMailBody(body) == Some(form)
  {
    var rest := form.email + "\n\n" + form.message;
    var body := form.name + "\n" + form.email + "\n\n" + form.message;
    if '\n' !in form.name && '\n' !in form.email then
      assert body == form.name + ['\n'] + rest;
      SplitAtFirst(form.name, '\n', rest);
      assert rest == form.email + ['\n'] + ("\n" + form.message);
      SplitAtFirst(form.email, '\n', "\n" + form.message);
      StripPrefixOfConcat("\n", form.message);
      body
    else
      body
  }

  /** The fallback link: recipient, then the encoded subject and body. It
      reads back as the recipient, the subject and the mail body whenever
      the recipient contains no `?`. */
  function MailtoLink(contactTo: Option<string>, form: Form): (link: string)
    ensures '?' !in Or(contactTo, DefaultContactTo) ==>
              ParseMailto(link) == Some((Or(contactTo, DefaultContactTo), MailSubject, MailBody(form)))
  {
    var to := Or(contactTo, DefaultContactTo);
    var link := "mailto:" + (to + ("?subject=" + (UriComponent.Encode(MailSubject) + ("&body=" + UriComponent.Encode(MailBody(form))))));
    if '?' !in to then
      LinkRoundTrip(to, MailSubject, MailBody(form));
      link
    else
      link
  }

  /** One run of `handleContactSubmit`: state while outstanding, the
      payload posted, state after, and where the browser is sent. */
  datatype ContactRun = ContactRun(pending: Home, payload: ContactRoute.Request, final: Home, navigate: Option<string>)

  /** `handleContactSubmit`, with `NEXT_PUBLIC_CONTACT_TO` as `contactTo`. */
  function HandleContact(h: Home, form: Form, f: Fetched, contactTo: Option<string>): (r: ContactRun)
    ensures r.pending == h.(sending := true, status := "")
    ensures r.payload == ContactRoute.Fields(Some(form.name), Some(form.email), Some(form.message))
    ensures !r.final.sending && r.final.buying == h.buying
    ensures r.navigate.None? <==> ContactSucceeded(f)
    ensures r.navigate.None? ==> r.final.status == Or(f.reply.body.data.message, MessageSent)
    ensures r.navigate.Some? ==> r.navigate.value == MailtoLink(contactTo, form) && r.final.status != ""
    ensures r.navigate.Some? && f.Delivered? && f.reply.body.Parsed? ==>
              r.final.status == Or(f.reply.body.data.error, MessageSendFailed)
    ensures r.navigate.Some? && f.Rejected? ==> r.final.status == Or(Some(f.reason), FallbackOpened)
    ensures r.navigate.Some? && f.Delivered? && f.reply.body.Unparsable? ==>
              r.final.status == Or(Some(f.reply.body.reason), FallbackOpened)
  {
    var pending := h.(sending := true, status := "");
    var payload := Payload(form);
    if ContactSucceeded(f) then
      ContactRun(pending, payload, pending.(status := Or(f.reply.body.data.message, MessageSent), sending := false), None)
    else
      var link := MailtoLink(contactTo, form);
      ContactRun(pending, payload, pending.(status := Or(Some(ContactError(f)), FallbackOpened), sending := false), Some(link))
  }

  /** Reads a `mailto:` link of the fallback's shape back into recipient,
      decoded subject and decoded body. */
  function ParseMailto(link: string): Option<(string, string, string)> {
    match StripPrefix(link, "mailto:")
    case None => None
    case Some(rest) => ParseRecipient(rest)
  }

  function ParseRecipient(rest: string): Option<(string, string, string)> {
    match SplitAt(rest, '?')
    case None => None
    case Some((to, query)) =>
      match StripPrefix(query, "subject=")
      case None => None
      case Some(params) => ParseParams(to, params)
  }

  function ParseParams(to: string, params: string): Option<(string, string, string)> {
    match SplitAt(params, '&')
    case None => None
    case Some((subject, tail)) =>
      match StripPrefix(tail, "body=")
      case None => None
      case Some(body) =>
        match (UriComponent.Decode(subject), UriComponent.Decode(body))
        case (Some(s), Some(b)) => Some((to, s, b))
        case _ => None
  }

  /** Reads a fallback mail body back into the three form values. */
  function ParseMailBody(body: string): Option<Form> {
    match SplitAt(body, '\n')
    case None => None
    case Some((name, rest)) =>
      match SplitAt(rest, '\n')
      case None => None
      case Some((email, rest')) =>
        match StripPrefix(rest', "\n")
        case None => None
        case Some(message) => Some(Form(name, email, message))
  }

  lemma EncodedHasNo(s: string, c: char)
    requires !UriComponent.EncodedChar(c)
    ensures c !in UriComponent.Encode(s)
  {
  }

  lemma ParamsRoundTrip(to: string, subject: string, body: string)
    ensures ParseParams(to, UriComponent.Encode(subject) + ("&body=" + UriComponent.Encode(body))) == Some((to, subject, body))
  {
    EncodedHasNo(subject, '&');
    UriComponent.DecodeEncode(subject);
    UriComponent.DecodeEncode(body);
    ParamsOf(to, UriComponent.Encode(subject), subject, UriComponent.Encode(body), body);
  }

  lemma ParamsOf(to: string, es: string, subject: string, eb: string, body: string)
    requires '&' !in es
    requires UriComponent.Decode(es) == Some(subject) && UriComponent.Decode(eb) == Some(body)
    ensures ParseParams(to, es + ("&body=" + eb)) == Some((to, subject, body))
  {
    assert "&body=" + eb == ['&'] + ("body=" + eb);
    SplitAtFirst(es, '&', "body=" + eb);
    StripPrefixOfConcat("body=", eb);
  }

  lemma RecipientRoundTrip(to: string, params: string)
    requires '?' !in to
    ensures ParseRecipient(to + ("?subject=" + params)) == ParseParams(to, params)
  {
    assert "?subject=" + params == ['?'] + ("subject=" + params);
    SplitAtFirst(to, '?', "subject=" + params);
    StripPrefixOfConcat("subject=", params);
  }

  /** A link of the fallback's shape reads back as its recipient, subject
      and body whenever the recipient contains no `?`. */
  lemma LinkRoundTrip(to: string, subject: string, body: string)
    requires '?' !in to
    ensures ParseMailto("mailto:" + (to + ("?subject=" + (UriComponent.Encode(subject) + ("&body=" + UriComponent.Encode(body))))))
            == Some((to, subject, body))
  {
    var params := UriComponent.Encode(subject) + ("&body=" + UriComponent.Encode(body));
    StripPrefixOfConcat("mailto:", to + ("?subject=" + params));
    RecipientRoundTrip(to, params);
    ParamsRoundTrip(to, subject, body);
  }

  /** Any failed send opens a mail draft to the configured (or default)
      recipient that carries exactly what the user typed. */
  lemma FallbackCarriesForm(h: Home, form: Form, f: Fetched, contactTo: Option<string>)
    requires !ContactSucceeded(f)
    requires '?' !in Or(contactTo, DefaultContactTo)
    requires '\n' !in form.name && '\n' !in form.email
    ensures var r := HandleContact(h, form, f, contactTo);
            && r.navigate.Some?
            && ParseMailto(r.navigate.value) == Some((Or(contactTo, DefaultContactTo), MailSubject, MailBody(form)))
            && ParseMailBody(MailBody(form)) == Some(form)
  {
  }
}
