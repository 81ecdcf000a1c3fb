/** The verumé product page: the configurator (pieces, light module and its
    quantity), the price it shows, and the checkout handler that posts the
    configuration and follows the answer. */
module Verume {
  import opened Js
  import opened CheckoutClient

  const ObjectPrice := 248000
  const LightModulePrice := 29000
  const MinQty := 1
  const MaxQty := 99
  const ProductId := "verume"

  /** The configurator's state: pieces, whether the light module is
      selected, and the light-module quantity (kept while deselected). */
  datatype Config = Config(qty: int, lightModule: bool, lightQty: int)

  /** Both quantities lie in [1, 99]. */
  predicate Valid(c: Config) {
    MinQty <= c.qty <= MaxQty && MinQty <= c.lightQty <= MaxQty
  }

  /** The state the page starts in. */
  const Initial := Config(1, false, 1)

  /** `Math.max(1, v - 1)`. */
  function Dec(v: int): (r: int)
    ensures r >= MinQty
    ensures v > MinQty ==> r == v - 1
    ensures v <= MinQty + 1 ==> r == MinQty
  {
    if v - 1 >= MinQty then v - 1 else MinQty
  }

  /** `Math.min(99, v + 1)`. */
  function Inc(v: int): (r: int)
    ensures r <= MaxQty
    ensures v < MaxQty ==> r == v + 1
    ensures v >= MaxQty - 1 ==> r == MaxQty
  {
    if v + 1 <= MaxQty then v + 1 else MaxQty
  }

  /** The user's edits: the four -/+ buttons and the checkbox, which reports
      its new checked state. */
  datatype Edit = DecQty | IncQty | DecLightQty | IncLightQty | SetLightModule(checked: bool)

  function Apply(c: Config, e: Edit): (r: Config)
    ensures Valid(c) ==> Valid(r)
    ensures e.DecQty? ==> r.qty == Dec(c.qty)
    ensures e.IncQty? ==> r.qty == Inc(c.qty)
    ensures e.DecLightQty? ==> r.lightQty == Dec(c.lightQty)
    ensures e.IncLightQty? ==> r.lightQty == Inc(c.lightQty)
    ensures e.DecQty? || e.IncQty? ==> r.lightModule == c.lightModule && r.lightQty == c.lightQty
    ensures e.DecLightQty? || e.IncLightQty? ==> r.qty == c.qty && r.lightModule == c.lightModule
    ensures e.SetLightModule? ==> r == Config(c.qty, e.checked, c.lightQty)
  {
    match e
    case DecQty => c.(qty := Dec(c.qty))
    case IncQty => c.(qty := Inc(c.qty))
    case DecLightQty => c.(lightQty := Dec(c.lightQty))
    case IncLightQty => c.(lightQty := Inc(c.lightQty))
    case SetLightModule(checked) => c.(lightModule := checked)
  }

  /** The configuration after a sequence of edits. */
  function ApplyAll(c: Config, es: seq<Edit>): (r: Config)
    ensures Valid(c) ==> Valid(r)
    decreases |es|
  {
    if es == [] then c else ApplyAll(Apply(c, es[0]), es[1..])
  }

  /** Every configuration the page can reach satisfies the clamp invariant. */
  lemma ReachableValid(es: seq<Edit>)
    ensures Valid(ApplyAll(Initial, es))
  {
  }

  /** `k` presses of the same button. */
  function Repeat(e: Edit, k: nat): (es: seq<Edit>)
    ensures |es| == k && forall i :: 0 <= i < k ==> es[i] == e
  {
    seq(k, _ => e)
  }

  /** Pressing + on the pieces `k` times saturates at 99. */
  lemma {:induction false} RepeatIncQty(c: Config, k: nat)
    requires Valid(c)
    ensures ApplyAll(c, Repeat(IncQty, k)).qty == (if c.qty + k <= MaxQty then c.qty + k else MaxQty)
    decreases k
  {
    if k > 0 {
      var es := Repeat(IncQty, k);
      assert es[1..] == Repeat(IncQty, k - 1);
      RepeatIncQty(Apply(c, IncQty), k - 1);
    }
  }

  /** Pressing - on the pieces `k` times saturates at 1: from 1, five
      presses leave 1. */
  lemma {:induction false} RepeatDecQty(c: Config, k: nat)
    requires Valid(c)
    ensures ApplyAll(c, Repeat(DecQty, k)).qty == (if c.qty - k >= MinQty then c.qty - k else MinQty)
    decreases k
  {
    if k > 0 {
      var es := Repeat(DecQty, k);
      assert es[1..] == Repeat(DecQty, k - 1);
      RepeatDecQty(Apply(c, DecQty), k - 1);
    }
  }

  /** A decrement at 1 and an increment at 99 change nothing; otherwise
      they move the quantity by exactly one. */
  lemma StepBounds(v: int)
    requires MinQty <= v <= MaxQty
    ensures Dec(v) == (if v == MinQty then v else v - 1)
    ensures Inc(v) == (if v == MaxQty then v else v + 1)
    ensures MinQty <= Dec(v) <= MaxQty && MinQty <= Inc(v) <= MaxQty
  {
  }

  /** The displayed total: pieces at the object price plus, when the light
      module is selected, its quantity at the module price: the sum over
      the order's line items. */
  function Total(c: Config): (r: int)
    ensures r == Sum(Lines(c))
  {
    var ls := Lines(c);
    assert Sum(ls) == ObjectPrice * c.qty + Sum(ls[1..]);
    if c.lightModule then
      assert ls[1..] == [Line(LightModulePrice, c.lightQty)];
      assert Sum(ls[1..]) == LightModulePrice * c.lightQty + Sum(ls[2..]);
      ObjectPrice * c.qty + LightModulePrice * c.lightQty
    else
      assert ls[1..] == [];
      ObjectPrice * c.qty
  }

  /** A line of the order: unit price and quantity. */
  datatype Line = Line(unitPrice: int, quantity: int)

  /** The order as line items: the object, and the light module only when selected. */
  function Lines(c: Config): seq<Line> {
    [Line(ObjectPrice, c.qty)] + (if c.lightModule then [Line(LightModulePrice, c.lightQty)] else [])
  }

  function Sum(ls: seq<Line>): int
    decreases |ls|
  {
    if ls == [] then 0 else ls[0].unitPrice * ls[0].quantity + Sum(ls[1..])
  }

  /** 2 pieces with 3 light modules cost 583000. */
  lemma TotalExample()
    ensures Total(Config(2, true, 3)) == 583000
  {
  }

  /** With the light module deselected the stored light quantity has no
      effect: the total is the pieces alone. */
  lemma LightQtyIgnoredWhenOff(c: Config, lightQty: int)
    requires !c.lightModule
    ensures Total(c.(lightQty := lightQty)) == Total(c) == ObjectPrice * c.qty
  {
  }

  /** On valid configurations the total lies in [248000, 27423000]. */
  lemma TotalBounds(c: Config)
    requires Valid(c)
    ensures ObjectPrice <= Total(c) <= 27_423_000
    ensures Total(c) == ObjectPrice <==> c.qty == 1 && !c.lightModule
  {
  }

  /** The total is monotone in each quantity. */
  lemma TotalMonotone(c: Config, qty: int, lightQty: int)
    requires c.qty <= qty && c.lightQty <= lightQty
    ensures Total(c) <= Total(c.(qty := qty, lightQty := lightQty))
  {
  }

  /** Each + on the pieces raises the total by exactly one object price,
      unless the count is already at 99. */
  lemma IncQtyRaisesTotal(c: Config)
    requires Valid(c)
    ensures Total(Apply(c, IncQty)) == Total(c) + (if c.qty < MaxQty then ObjectPrice else 0)
  {
  }

  /** Deselecting and reselecting the light module restores the
      configuration, light quantity included. */
  lemma ToggleRestores(c: Config)
    ensures Apply(Apply(c, SetLightModule(!c.lightModule)), SetLightModule(c.lightModule)) == c
  {
  }

  /** The body `handleBuy` posts: the product, the piece count, the light
      flag, and the light quantity only when the module is selected. */
  function Request(c: Config): (b: CheckoutBody)
    ensures b.productId == ProductId && b.qty == c.qty && b.lightModule == c.lightModule
    ensures !c.lightModule ==> b.lightQty == 0
    ensures c.lightModule ==> b.lightQty == c.lightQty
  {
    CheckoutBody(ProductId, c.qty, c.lightModule, if c.lightModule then c.lightQty else 0)
  }

  /** The request body alone determines the total the page showed, and on a
      valid configuration its light quantity is zero exactly when the module
      is deselected. */
  lemma RequestDeterminesTotal(c: Config)
    ensures Total(c) == ObjectPrice * Request(c).qty + LightModulePrice * Request(c).lightQty
    ensures Valid(c) ==> (Request(c).lightQty == 0 <==> !Request(c).lightModule)
  {
  }

  /** The page: configuration, the `buying` flag that disables the button,
      and the status line. */
  datatype Page = Page(config: Config, buying: bool, status: string)

  const InitialPage := Page(Initial, false, "")

  /** One run of `handleBuy`: the state while the request is outstanding,
      the body posted, the state after, and where the browser is sent. */
  datatype BuyRun = BuyRun(pending: Page, request: CheckoutBody, final: Page, navigate: Option<string>)

  function HandleBuy(p: Page, f: Fetched): (r: BuyRun)
    ensures r.pending == Page(p.config, true, "")
    ensures r.request == Request(p.config)
    ensures r.final.config == p.config && !r.final.buying
    ensures r.navigate.Some? <==> Succeeded(f)
    ensures r.navigate.Some? ==> r.navigate.value == f.reply.body.data.url.value && r.final.status == ""
    ensures r.navigate.None? ==> r.final.status != ""
    ensures r.navigate.None? && f.Delivered? && f.reply.body.Parsed? ==>
              r.final.status == Or(f.reply.body.data.error, CheckoutFailed)
    ensures r.navigate.None? && f.Rejected? ==> r.final.status == Or(Some(f.reason), CheckoutFailed)
    ensures r.navigate.None? && f.Delivered? && f.reply.body.Unparsable? ==>
              r.final.status == Or(Some(f.reply.body.reason), CheckoutFailed)
  {
    var pending := p.(buying := true, status := "");
    var request := Request(pending.config);
    match ClassifyCheckout(f)
    case Navigate(url) => BuyRun(pending, request, pending.(buying := false), Some(url))
    case ShowStatus(message) => BuyRun(pending, request, pending.(status := message, buying := false), None)
  }

  /** A failed checkout surfaces the service's `error` when it gave one. */
  lemma ServiceErrorShown(p: Page, status: int, error: string)
    requires !(200 <= status <= 299) && error != ""
    ensures HandleBuy(p, Delivered(ToReply(Response(status, ErrorJson(error))))).final.status == error
    ensures !HandleBuy(p, Delivered(ToReply(Response(status, ErrorJson(error))))).final.buying
  {
  }
}
