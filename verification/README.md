# xatom storefront — a Dafny model

This project models the logic of the xatom.space storefront, a small Next.js shop.
It covers five source files:

- The verumé product page. It holds a configurator with a piece count and a light-module add-on with its own count, both clamped to [1, 99]. It shows a total in KRW and has a checkout handler that posts the configuration and either follows the returned payment URL or shows an error.
- The home page's hero carousel. It shows up to five slides, with next/prev buttons, dots, arrow keys, swipes and a timer that advances while the carousel is not paused.
- The single-page storefront's two handlers. One is a Buy button that posts an empty checkout request. The other is a contact form that posts its three fields and, on any failure, opens a pre-filled `mailto:` draft.
- `POST /api/checkout`. It picks the origin, checks the payment-provider configuration, asks for a one-item payment session and maps errors to responses.
- `POST /api/contact`. It validates the three fields by JavaScript truthiness, composes the notification mail and maps errors to responses.

Browser and server effects are values:

- `fetch` settles as `Delivered(Reply(ok, body))` or `Rejected(message)`.
- `res.json()` yields `Parsed(json)` or `Unparsable(message)`.
- Navigation is the `navigate` field of a handler run.
- The payment provider's session call is a `SessionOutcome`: `Created(url)` or `Threw`.
- The mail transport is a `sent` flag.
- Environment variables are `Option<string>` parameters.

`encodeURIComponent` and `decodeURIComponent` are modelled in full, following section 19.2.6 of ECMA-262: UTF-8 escaping of every character outside the unreserved set, and a decoder that rejects bad escapes, overlong forms and surrogates. Their round trip is proved.

Modules:

- `Js`: truthiness, `||`, template interpolation, and numbers with NaN and the truncating `%`.
- `Text`: splitting helpers used to read composed strings back.
- `UriComponent`: the URI component codec.
- `CheckoutClient`: the wire types and the checkout-response rule the two pages share.
- `Verume`: the product page.
- `Carousel`: the hero carousel.
- `Storefront`: the single-page storefront's handlers.
- `CheckoutRoute` and `ContactRoute`: the two routes.
- `Flows`: each page composed with the route it calls.

Behaviour worth noting:

- Contact fields are not trimmed. A whitespace-only field passes validation (`ContactRoute.WhitespaceAccepted`).
- The `mailto:` fallback opens on any contact failure: a 400 from validation, a 500 from the transport, an unparsable body or a network rejection. It is not limited to transport failures.
- The checkout route never reads the request body. The product page's quantities and light module do not reach the payment session, which is always one unit of the configured price (`CheckoutRoute.BodyIgnored`).
- After a successful contact submission the page shows the route's `message`, which is `ok`, and not "Message sent." (`Flows.ContactSubmission`), with `reset()` not throwing; see Left out.

## Model

| member | source | states |
|---|---|---|
| Verume.Dec | app/products/verume/page.tsx:41-44 | the decrement never goes below 1, moves down by one above 1 and pins to 1 at 1 |
| Verume.Inc | app/products/verume/page.tsx:42-45 | the increment never goes above 99, moves up by one below 99 and pins to 99 at 99 |
| Verume.Apply | app/products/verume/page.tsx:41-45 | each -/+ button applies the clamped decrement or increment to its own quantity and leaves the other fields alone; the checkbox sets just `lightModule` to the reported checked state; both quantities stay in [1, 99] |
| Verume.ApplyAll | app/products/verume/page.tsx:26-30 | any sequence of edits from a valid configuration stays valid |
| Verume.ReachableValid | app/products/verume/page.tsx:26-30 | every configuration reachable from the initial one (1 piece, no module, 1 module) has both quantities in [1, 99] |
| Verume.RepeatIncQty | app/products/verume/page.tsx:42 | k presses of + on pieces give min(qty + k, 99) |
| Verume.RepeatDecQty | app/products/verume/page.tsx:41 | k presses of - on pieces give max(qty - k, 1) |
| Verume.StepBounds | app/products/verume/page.tsx:41-45 | on [1, 99], - at 1 and + at 99 change nothing, and otherwise each moves by exactly one |
| Verume.Total | app/products/verume/page.tsx:35-39 | the total equals the sum over the order's line items (the object, plus the light module only when selected) of unit price times quantity |
| Verume.TotalExample | app/products/verume/page.tsx:7-8 | 2 pieces with 3 light modules cost 583000 |
| Verume.LightQtyIgnoredWhenOff | app/products/verume/page.tsx:37 | with the module deselected, the light quantity has no effect on the total |
| Verume.TotalBounds | app/products/verume/page.tsx:35-45 | on valid configurations the total lies in [248000, 27423000], and is 248000 exactly for one piece without the module |
| Verume.TotalMonotone | app/products/verume/page.tsx:35-39 | the total never decreases when either quantity grows |
| Verume.IncQtyRaisesTotal | app/products/verume/page.tsx:35-42 | each + on pieces raises the total by one object price unless already at 99 |
| Verume.ToggleRestores | app/products/verume/page.tsx:140 | deselecting and reselecting the module restores the whole configuration, light quantity included |
| Verume.Request | app/products/verume/page.tsx:56-61 | the posted body names the product `verume` and carries the piece count, the module flag, and the light quantity only when the module is selected (0 otherwise) |
| Verume.RequestDeterminesTotal | app/products/verume/page.tsx:35-39 | the displayed total can be recomputed from the posted body alone; on valid configurations its light quantity is 0 exactly when the module is off |
| Verume.HandleBuy | app/products/verume/page.tsx:47-72 | the handler clears the status and sets `buying`, posts the configuration's body, navigates to `data.url` exactly when the response is ok with a truthy url; otherwise the status is `data.error` or `Checkout failed.` for a parsed reply, and the rejection's or parse error's message or `Checkout failed.` otherwise; `buying` is false and the configuration unchanged afterwards |
| Verume.ServiceErrorShown | app/products/verume/page.tsx:65-68 | a non-ok response with an `error` shows that error as the status |
| CheckoutClient.ToReply | app/products/verume/page.tsx:64-65 | `res.ok` holds exactly for statuses 200-299 and the page reads the route's JSON |
| CheckoutClient.ClassifyCheckout | app/products/verume/page.tsx:64-68 | navigation happens exactly when the response is ok with a truthy `url`; otherwise the status is `data.error` or `Checkout failed.` for a parsed reply, and the rejection or parse error's message (or `Checkout failed.`) otherwise, and is never empty |
| Carousel.Slides | app/home/page.jsx:8 | the slides are the first min(5, count) images, in order |
| Carousel.GoTo | app/home/page.jsx:15 | for targets from -n upwards the index lands in [0, n); a target in [0, n) is taken as is, one in [-n, 0) wraps to target + n, target n wraps to 0; with no slides the index becomes NaN |
| Carousel.Next | app/home/page.jsx:16 | next changes only the index: from a valid index to the following slide, and from the last slide to the first; with no slides the index becomes NaN |
| Carousel.Prev | app/home/page.jsx:17 | prev changes only the index: from a valid index to the preceding slide, and from the first slide to the last; with no slides the index becomes NaN |
| Carousel.Tick | app/home/page.jsx:21-24 | the timer changes nothing while paused or with at most one slide, and otherwise acts as next |
| Carousel.KeyDown | app/home/page.jsx:30-33 | ArrowRight acts exactly as next and ArrowLeft exactly as prev (moving only the index, with wrap-around at both ends), and any other key leaves the carousel unchanged |
| Carousel.TouchStart | app/home/page.jsx:38-42 | touch start records the x position, zeroes the delta and pauses, without moving the index |
| Carousel.TouchMove | app/home/page.jsx:44-47 | touch move is ignored without a recorded start and otherwise records the delta from the start |
| Carousel.TouchEnd | app/home/page.jsx:49-60 | touch end clears the start and the delta and resumes the carousel; a stored delta beyond 50 px left moves to the next slide, beyond 50 px right to the previous one, and anything within 50 px (a tap, or a release with no recorded start) leaves the index |
| Carousel.Step | app/home/page.jsx:15-66 | every event keeps the slide count and keeps the index on a slide; mouse enter pauses and mouse leave resumes, changing nothing else |
| Carousel.Run | app/home/page.jsx:15-66 | any sequence of events keeps the index on a slide |
| Carousel.ReachableValid | app/home/page.jsx:9 | from index 0, every reachable state has its index in [0, n) once there is a slide |
| Carousel.Wraps | app/home/page.jsx:15-17 | next from the last slide goes to the first, and prev from the first goes to the last |
| Carousel.PrevNextInverse | app/home/page.jsx:15-17 | prev undoes next and next undoes prev |
| Carousel.NextIterated | app/home/page.jsx:16 | k clicks on next land on (index + k) mod n |
| Carousel.FullCycle | app/home/page.jsx:16 | n clicks on next return to the starting slide |
| Carousel.DotSelects | app/home/page.jsx:114 | a dot click selects exactly that slide |
| Carousel.SwipeOutcome | app/home/page.jsx:49-57 | after a drag to a (possibly fractional) position, a move left of more than 50 px is next, right of more than 50 px is prev, and anything within 50 px leaves the index |
| Carousel.GoToBelowRange | app/home/page.jsx:15 | below -n the truncating remainder leaves [0, n): target -1 - n gives -1 with two or more slides |
| Carousel.EmptyNextIsNaN | app/home/page.jsx:15-16 | with no slides, next makes the index NaN |
| Storefront.HandleBuy | app/home/page.js:20-36 | the Buy button sets `buying`, posts no body, navigates exactly when the response is ok with a truthy url, keeping the old status; otherwise the status is `data.error` or `Checkout failed.` for a parsed reply, and the rejection's or parse error's message or `Checkout failed.` otherwise; `buying` is false afterwards |
| Storefront.HandleContact | app/home/page.js:38-73 | the form sets `sending` and clears the status, posts exactly its three fields, shows `data.message` or `Message sent.` on success; on any failure it navigates to the `mailto:` fallback, with status `data.error` or `Message send failed.` when the reply parsed, and the rejection's or parse error's message or `Contact fallback opened.` otherwise; `sending` is false afterwards |
| Storefront.Payload | app/home/page.js:44-48 | the payload carries the form's name, email and message in the fields of the same names, and passes the route's validation exactly when none of them is empty |
| Storefront.MailtoLink | app/home/page.js:66-68 | the fallback link reads back as the configured or default recipient, the fixed subject and the mail body, when the recipient has no `?` |
| Storefront.MailBody | app/home/page.js:67 | the fallback mail body reads back as the three form values when name and email are single lines |
| Storefront.FallbackCarriesForm | app/home/page.js:65-69 | any failed submission opens a draft from which the recipient, the subject and exactly what the user typed can be recovered |
| Storefront.LinkRoundTrip | app/home/page.js:68 | a link of the fallback's shape reads back as its recipient and decoded subject and body |
| UriComponent.Encode | app/home/page.js:66-67 | the encoded text uses only unreserved characters, `%` and upper-case hex digits |
| UriComponent.DecodeEncode | app/home/page.js:66-67 | decoding an encoded component always succeeds and gives the original string back |
| UriComponent.DecodeEscapedChar | app/home/page.js:67 | the escaped UTF-8 bytes of any character decode back to that character |
| CheckoutRoute.Origin | app/api/checkout/route.js:6 | the origin is the header when truthy, else the site URL when truthy, else `http://localhost:3000`, and never empty |
| CheckoutRoute.Session | app/api/checkout/route.js:19-24 | the session is a payment of one unit of the price, returning to origin `/success` or origin `/cancel` |
| CheckoutRoute.Post | app/api/checkout/route.js:4-31 | without a truthy key and price id the route answers 500 with the configuration message and creates no session; otherwise it asks for the session and answers 200 with its url, or 500 `Failed to create checkout session.` when the call throws |
| CheckoutRoute.BodyIgnored | app/api/checkout/route.js:19-21 | the route's session and answer do not depend on the posted body, and the session has one line item |
| CheckoutRoute.ReturnUrlsShareOrigin | app/api/checkout/route.js:22-23 | the success and cancel URLs both start with the origin and differ |
| ContactRoute.Compose | app/api/contact/route.js:19-25 | the mail goes to the fixed recipient, replies to the sender's email, is sent from the configured user (`undefined` when unset), and carries the name's subject and the three fields' text |
| ContactRoute.Subject | app/api/contact/route.js:23 | the subject is the prefix `[xatom Contact] ` followed by exactly the sender's name |
| ContactRoute.Post | app/api/contact/route.js:3-31 | a body that fails to parse gives 500 `Failed to send message.`; a falsy field gives 400 `All fields are required.` without mail; a mail is composed exactly when all three fields are truthy, and then the answer is 200 `{message: 'ok'}` or 500 when sending fails |
| ContactRoute.WhitespaceAccepted | app/api/contact/route.js:7 | any three non-empty fields made only of spaces, tabs and line breaks pass validation and produce a mail |
| ContactRoute.EmptyFieldRejected | app/api/contact/route.js:7-8 | whichever of the three fields is missing or empty, the route answers 400 `All fields are required.` and sends no mail |
| ContactRoute.MailText | app/api/contact/route.js:24 | the mail text reads back as name, email and message when name and email are single lines |
| Js.Or | app/home/page.js:64 | `v || fallback` is the value when truthy and the fallback otherwise |
| Js.FirstTruthy | app/api/checkout/route.js:6 | a `||` chain yields its first truthy value, or the fallback when none is truthy |
| Js.Rem | app/home/page.jsx:15 | JavaScript's `%` differs from its dividend by a multiple of the divisor, takes the dividend's sign, agrees with the mathematical remainder on non-negative dividends, and is NaN for a zero divisor |
| Flows.ProductCheckout | app/products/verume/page.tsx:64-68 | against the checkout route, the product page navigates exactly when the provider is configured and returned a non-empty url; otherwise it shows the configuration message, `Failed to create checkout session.`, or `Checkout failed.` for a missing url |
| Flows.StorefrontCheckout | app/home/page.js:23-34 | against the checkout route, the storefront's Buy button navigates to the session url exactly when the provider is configured and returned a non-empty url, keeping the old status; otherwise it shows the configuration message, `Failed to create checkout session.`, or `Checkout failed.` for a missing url; `buying` is false afterwards |
| Flows.ContactSubmission | app/home/page.js:57-69 | against the contact route, an empty field opens the fallback with status `All fields are required.`, a failed send opens it with `Failed to send message.`, and a delivered message shows `ok` |

## Left out

- Markup, styling, images, the `Image`/`Link` components and the other pages of the site are presentational and not modelled.
- `formatKRW` (`Intl.NumberFormat`) is locale-library formatting. The model proves facts about the integer total, not its rendering.
- React state scheduling, effect and listener registration, and the 3500 ms interval period are left out. Handlers are sequential state transitions, and each timer firing is an `Interval` event.
- `event.currentTarget.reset()` after the `await` in the contact handler is modelled as not throwing. Whether it throws depends on framework runtime behaviour that is not visible in this code.
- Concurrent submissions are not modelled. Only the `disabled` attribute on the buttons prevents them, and the handlers do no locking.
- The HTML `required` attributes on the contact form are left out. The model lets the handler submit any values, which the route's own validation covers.
- The internals of the payment provider's SDK and of the mail transport are foreign calls. They are outcome parameters: `SessionOutcome` and the `sent` flag.
- `console.error` logging in both routes is left out.
- JSON values other than strings in the reply fields (numbers, objects in `url`, `error` or `message`) are not modelled. Every field is a string or absent.
- ContactRoute.Post: the request fields are strings or absent. The route destructures any JSON body, and truthiness differs for other values: `0` or `false` is rejected with 400, while `true`, an object or an array passes validation and is interpolated into the mail as text. These non-string fields are not modelled.
- Strings are sequences of Unicode scalar values. Lone surrogates cannot be represented, so the case where `encodeURIComponent` throws on them is not modelled.
- Carousel.GoTo: the index is only promised to stay in range for targets of at least -n. Below that, JavaScript's truncating remainder leaves the range, as `Carousel.GoToBelowRange` shows. The page's own callers never pass such targets.
