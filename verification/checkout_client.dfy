/** What a page sees of an HTTP exchange, and the checkout-response rule
    both storefront pages share: navigate to the returned `url` when the
    response is ok and carries one, otherwise show an error status. */
module CheckoutClient {
  import opened Js

  /** The fields of a JSON reply the pages and routes read. A reply of
      `null`, or an object without a field, leaves that field absent. */
  datatype Json = Json(url: Option<string>, error: Option<string>, message: Option<string>)

  /** What `await res.json()` yields: an object, or the exception a body
      that is not JSON raises (its message). */
  datatype Body = Parsed(data: Json) | Unparsable(reason: string)

  /** A response as `fetch` resolves it: `res.ok` and its body. */
  datatype Reply = Reply(ok: bool, body: Body)

  /** How the `fetch` promise settles: a response, or a rejection (its message). */
  datatype Fetched = Delivered(reply: Reply) | Rejected(reason: string)

  /** A route's answer: an HTTP status and a JSON object. */
  datatype Response = Response(status: int, json: Json)

  /** The reply a page sees for a route's response: `res.ok` is a status in 200-299. */
  function ToReply(r: Response): (reply: Reply)
    ensures reply.ok <==> 200 <= r.status <= 299
    ensures reply.body == Parsed(r.json)
  {
    Reply(200 <= r.status <= 299, Parsed(r.json))
  }

  function UrlJson(url: Option<string>): Json { Json(url, None, None) }
  function ErrorJson(error: string): Json { Json(None, Some(error), None) }
  function MessageJson(message: string): Json { Json(None, None, Some(message)) }

  /** The body a checkout POST carries (the product page sends one, the
      storefront page sends none). */
  datatype CheckoutBody = CheckoutBody(productId: string, qty: int, lightModule: bool, lightQty: int)

  /** What a handler does once its request has settled. */
  datatype Outcome = Navigate(url: string) | ShowStatus(message: string)

  const CheckoutFailed := "Checkout failed."

  /** The checkout succeeded: an ok response whose JSON carries a truthy `url`. */
  predicate Succeeded(f: Fetched) {
    && f.Delivered?
    && f.reply.ok
    && f.reply.body.Parsed?
    && Truthy(f.reply.body.data.url)
  }

  /** The message of the exception a failed checkout ends in: the
      rejection's or parse error's own, or the `Error` thrown with
      `data.error || 'Checkout failed.'`. */
  function FailureMessage(f: Fetched): string
    requires !Succeeded(f)
  {
    match f
    case Rejected(reason) => reason
    case Delivered(Reply(_, Unparsable(reason))) => reason
    case Delivered(Reply(_, Parsed(data))) => Or(data.error, CheckoutFailed)
  }

  /** The `try`/`catch` of both checkout handlers: navigate to `data.url` on
      success; otherwise `e.message || 'Checkout failed.'` becomes the status. */
  function ClassifyCheckout(f: Fetched): (o: Outcome)
    ensures o.Navigate? <==> Succeeded(f)
    ensures o.Navigate? ==> o.url == f.reply.body.data.url.value && o.url != ""
    ensures o.ShowStatus? ==> o.message != ""
    ensures o.ShowStatus? && f.Delivered? && f.reply.body.Parsed? ==>
              o.message == (if Truthy(f.reply.body.data.error) then f.reply.body.data.error.value else CheckoutFailed)
    ensures o.ShowStatus? && !(f.Delivered? && f.reply.body.Parsed?) ==>
              o.message == Or(Some(if f.Rejected? then f.reason else f.reply.body.reason), CheckoutFailed)
  {
    if Succeeded(f) then Navigate(f.reply.body.data.url.value)
    else ShowStatus(Or(Some(FailureMessage(f)), CheckoutFailed))
  }
}
