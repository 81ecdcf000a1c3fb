/** `POST /api/checkout`: picks the origin, checks the payment provider is
    configured, asks it for a one-item payment session and answers with the
    session's URL. The provider's session call is a parameter: the outcome
    it produced for the parameters the route passed. */
module CheckoutRoute {
  import opened Js
  import opened CheckoutClient

  /** The environment the route reads. */
  datatype Env = Env(siteUrl: Option<string>, stripeKey: Option<string>, priceId: Option<string>)

  datatype LineItem = LineItem(price: string, quantity: int)

  /** The parameters of the checkout-session creation call. */
  datatype SessionParams = SessionParams(mode: string, lineItems: seq<LineItem>, successUrl: string, cancelUrl: string)

  /** What the session call did: resolved with a session (whose `url` may be
      missing), or threw. */
  datatype SessionOutcome = Created(url: Option<string>) | Threw

  /** The route's effect: the session it asked for, if any, and its response. */
  datatype RouteOutcome = RouteOutcome(session: Option<SessionParams>, response: Response)

  const DefaultOrigin := "http://localhost:3000"
  const NotConfigured := "Stripe is not configured. Set STRIPE_SECRET_KEY and STRIPE_PRICE_ID."
  const CreateFailed := "Failed to create checkout session."

  /** `origin header || NEXT_PUBLIC_SITE_URL || 'http://localhost:3000'`. */
  function Origin(header: Option<string>, siteUrl: Option<string>): (r: string)
    ensures r != ""
    ensures Truthy(header) ==> r == header.value
    ensures !Truthy(header) && Truthy(siteUrl) ==> r == siteUrl.value
    ensures !Truthy(header) && !Truthy(siteUrl) ==> r == DefaultOrigin
  {
    var r := FirstTruthy([header, siteUrl], DefaultOrigin);
    assert NoneTruthyBefore([header, siteUrl], 0);
    assert !Truthy(header) ==> NoneTruthyBefore([header, siteUrl], 1);
    r
  }

  /** Both the secret key and the price id are set and non-empty. */
  predicate Configured(env: Env) {
    Truthy(env.stripeKey) && Truthy(env.priceId)
  }

  /** The session the route asks for: a payment of one unit of the
      configured price, returning to the origin's success or cancel page. */
  function Session(origin: string, priceId: string): (p: SessionParams)
    ensures p.mode == "payment" && p.lineItems == [LineItem(priceId, 1)]
    ensures p.successUrl == origin + "/success" && p.cancelUrl == origin + "/cancel"
  {
    SessionParams("payment", [LineItem(priceId, 1)], origin + "/success", origin + "/cancel")
  }

  /** The handler. `body` is what the client posted; the route never reads it. */
  function Post(originHeader: Option<string>, env: Env, body: Option<CheckoutBody>, created: SessionOutcome): (o: RouteOutcome)
    ensures !Configured(env) ==> o == RouteOutcome(None, Response(500, ErrorJson(NotConfigured)))
    ensures Configured(env) ==> o.session == Some(Session(Origin(originHeader, env.siteUrl), env.priceId.value))
    ensures Configured(env) && created.Created? ==> o.response == Response(200, UrlJson(created.url))
    ensures Configured(env) && created.Threw? ==> o.response == Response(500, ErrorJson(CreateFailed))
  {
    var origin := Origin(originHeader, env.siteUrl);
    if !Truthy(env.stripeKey) || !Truthy(env.priceId) then
      RouteOutcome(None, Response(500, ErrorJson(NotConfigured)))
    else
      var session := Session(origin, env.priceId.value);
      match created
      case Created(url) => RouteOutcome(Some(session), Response(200, UrlJson(url)))
      case Threw => RouteOutcome(Some(session), Response(500, ErrorJson(CreateFailed)))
  }

  /** The posted body does not matter: whatever quantities a client sends,
      the route asks for the same single-unit session and answers the same. */
  lemma BodyIgnored(originHeader: Option<string>, env: Env, b1: Option<CheckoutBody>, b2: Option<CheckoutBody>, created: SessionOutcome)
    ensures Post(originHeader, env, b1, created) == Post(originHeader, env, b2, created)
    ensures Configured(env) ==> |Post(originHeader, env, b1, created).session.value.lineItems| == 1
  {
  }

  /** The success and cancel pages are distinct pages on the same origin. */
  lemma ReturnUrlsShareOrigin(origin: string, priceId: string)
    ensures var p := Session(origin, priceId);
            && origin <= p.successUrl && origin <= p.cancelUrl
            && p.successUrl != p.cancelUrl
  {
    var p := Session(origin, priceId);
    assert p.successUrl[|origin| + 1] == 's' && p.cancelUrl[|origin| + 1] == 'c';
  }
}
