/** The pages and the routes together: what the user ends up seeing when a
    page's request reaches the route and the route's response comes back. */
module Flows {
  import opened Js
  import opened CheckoutClient
  import Verume
  import Storefront
  import CheckoutRoute
  import ContactRoute

  /** The product page's checkout against the checkout route: the browser
      goes to the session URL exactly when the route is configured and the
      provider returned a non-empty URL; otherwise the route's error shows. */
  lemma ProductCheckout(p: Verume.Page, originHeader: Option<string>, env: CheckoutRoute.Env, created: CheckoutRoute.SessionOutcome)
    ensures var route := CheckoutRoute.Post(originHeader, env, Some(Verume.Request(p.config)), created);
            var run := Verume.HandleBuy(p, Delivered(ToReply(route.response)));
            && (run.navigate.Some? <==> CheckoutRoute.Configured(env) && created.Created? && Truthy(created.url))
            && (run.navigate.Some? ==> run.navigate.value == created.url.value)
            && (!CheckoutRoute.Configured(env) ==> run.final.status == CheckoutRoute.NotConfigured)
            && (CheckoutRoute.Configured(env) && created.Threw? ==> run.final.status == CheckoutRoute.CreateFailed)
            && (CheckoutRoute.Configured(env) && created.Created? && !Truthy(created.url) ==> run.final.status == CheckoutFailed)
            && !run.final.buying
  {
  }

  /** The storefront's Buy button against the same route: the same rule,
      with the previous status kept on success. */
  lemma StorefrontCheckout(h: Storefront.Home, originHeader: Option<string>, env: CheckoutRoute.Env, created: CheckoutRoute.SessionOutcome)
    ensures var route := CheckoutRoute.Post(originHeader, env, None, created);
            var run := Storefront.HandleBuy(h, Delivered(ToReply(route.response)));
            && (run.navigate.Some? <==> CheckoutRoute.Configured(env) && created.Created? && Truthy(created.url))
            && (run.navigate.Some? ==> run.navigate.value == created.url.value && run.final.status == h.status)
            && (!CheckoutRoute.Configured(env) ==> run.final.status == CheckoutRoute.NotConfigured)
            && (CheckoutRoute.Configured(env) && created.Threw? ==> run.final.status == CheckoutRoute.CreateFailed)
            && (CheckoutRoute.Configured(env) && created.Created? && !Truthy(created.url) ==> run.final.status == CheckoutFailed)
            && !run.final.buying
  {
  }

  /** The contact form against the contact route: an empty field or a
      failed send opens the mail fallback with the route's error as status;
      a delivered message shows the route's `ok`, not "Message sent.". */
  lemma ContactSubmission(h: Storefront.Home, form: Storefront.Form, emailUser: Option<string>, sent: bool, contactTo: Option<string>)
    ensures var route := ContactRoute.Post(Storefront.Payload(form), emailUser, sent);
            var run := Storefront.HandleContact(h, form, Delivered(ToReply(route.response)), contactTo);
            && (form.name == "" || form.email == "" || form.message == "" ==>
                  route.mail.None? && run.navigate == Some(Storefront.MailtoLink(contactTo, form))
                  && run.final.status == ContactRoute.FieldsRequired)
            && (form.name != "" && form.email != "" && form.message != "" && sent ==>
                  route.mail.Some? && run.navigate.None? && run.final.status == "ok")
            && (form.name != "" && form.email != "" && form.message != "" && !sent ==>
                  route.mail.Some? && run.navigate == Some(Storefront.MailtoLink(contactTo, form))
                  && run.final.status == ContactRoute.SendFailed)
            && !run.final.sending
  {
    if form.name == "" || form.email == "" || form.message == "" {
      ContactRejected(h, form, emailUser, sent, contactTo);
    } else if sent {
      ContactDelivered(h, form, emailUser, contactTo);
    } else {
      ContactSendFailed(h, form, emailUser, contactTo);
    }
  }

  lemma ContactRejected(h: Storefront.Home, form: Storefront.Form, emailUser: Option<string>, sent: bool, contactTo: Option<string>)
    requires form.name == "" || form.email == "" || form.message == ""
    ensures var route := ContactRoute.Post(Storefront.Payload(form), emailUser, sent);
            var run := Storefront.HandleContact(h, form, Delivered(ToReply(route.response)), contactTo);
            && route.mail.None? && run.navigate == Some(Storefront.MailtoLink(contactTo, form))
            && run.final.status == ContactRoute.FieldsRequired && !run.final.sending
  {
    var route := ContactRoute.Post(Storefront.Payload(form), emailUser, sent);
    assert route.response == Response(400, ErrorJson(ContactRoute.FieldsRequired));
  }

  lemma ContactDelivered(h: Storefront.Home, form: Storefront.Form, emailUser: Option<string>, contactTo: Option<string>)
    requires form.name != "" && form.email != "" && form.message != ""
    ensures var route := ContactRoute.Post(Storefront.Payload(form), emailUser, true);
            var run := Storefront.HandleContact(h, form, Delivered(ToReply(route.response)), contactTo);
            && route.mail.Some? && run.navigate.None? && run.final.status == "ok" && !run.final.sending
  {
    var route := ContactRoute.Post(Storefront.Payload(form), emailUser, true);
    assert route.response == Response(200, MessageJson("ok"));
  }

  lemma ContactSendFailed(h: Storefront.Home, form: Storefront.Form, emailUser: Option<string>, contactTo: Option<string>)
    requires form.name != "" && form.email != "" && form.message != ""
    ensures var route := ContactRoute.Post(Storefront.Payload(form), emailUser, false);
            var run := Storefront.HandleContact(h, form, Delivered(ToReply(route.response)), contactTo);
            && route.mail.Some? && run.navigate == Some(Storefront.MailtoLink(contactTo, form))
            && run.final.status == ContactRoute.SendFailed && !run.final.sending
  {
    var route := ContactRoute.Post(Storefront.Payload(form), emailUser, false);
    assert route.response == Response(500, ErrorJson(ContactRoute.SendFailed));
  }
}
