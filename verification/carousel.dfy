/** The home page's hero carousel: up to five slides, an index moved by the
    arrow buttons, the dots, the keyboard, swipes and a timer that advances
    it while the carousel is not paused. */
module Carousel {
  import opened Js

  const MaxSlides := 5
  /** A swipe moves the carousel only beyond this many pixels. */
  const SwipeThreshold: real := 50.0

  /** The slides shown: the first five images, in order. */
  function Slides<T>(images: seq<T>): (r: seq<T>)
    ensures |r| == (if |images| < MaxSlides then |images| else MaxSlides)
    ensures forall k :: 0 <= k < |r| ==> r[k] == images[k]
  {
    if |images| < MaxSlides then images else images[..MaxSlides]
  }

  /** The carousel's state: the slide count, the index (a JavaScript
      number), the pause flag, and the touch refs (start x, or none, and
      the horizontal delta). Touch positions are CSS pixels, which may be
      fractional. */
  datatype State = State(n: nat, index: Num, paused: bool, touchStartX: Option<real>, touchDeltaX: real)

  function Init(n: nat): State {
    State(n, Int(0), false, None, 0.0)
  }

  /** The index is a slide: always, once there is at least one slide. */
  predicate Valid(s: State) {
    s.n == 0 || (s.index.Int? && 0 <= s.index.v < s.n)
  }

  /** `goTo(i)`: `(i + slides.length) % slides.length` with JavaScript's
      truncating `%`. */
  function GoTo(s: State, i: Num): (r: State)
    ensures r == s.(index := r.index)
    ensures s.n > 0 && i.Int? && 0 <= i.v + s.n ==> r.index.Int? && 0 <= r.index.v < s.n
    ensures s.n > 0 && i.Int? && 0 <= i.v < s.n ==> r.index == i
    ensures s.n > 0 && i.Int? && i.v < 0 <= i.v + s.n ==> r.index == Int(i.v + s.n)
    ensures s.n > 0 && i == Int(s.n) ==> r.index == Int(0)
    ensures s.n == 0 ==> r.index == NaN
  {
    var r := s.(index := Rem(Plus(i, s.n), s.n));
    if s.n > 0 && i.Int? && 0 <= i.v + s.n <= 2 * s.n then
      ModSmall(i.v + s.n, s.n);
      r
    else
      r
  }

  /** `next`: from a valid index, the following slide, or the first after
      the last. Only the index changes. */
  function Next(s: State): (r: State)
    ensures r == s.(index := r.index)
    ensures Valid(s) && s.n > 0 ==> r.index == Int(if s.index.v == s.n - 1 then 0 else s.index.v + 1)
    ensures s.n == 0 ==> r.index == NaN
  {
    GoTo(s, Plus(s.index, 1))
  }

  /** `prev`: from a valid index, the preceding slide, or the last before
      the first. Only the index changes. */
  function Prev(s: State): (r: State)
    ensures r == s.(index := r.index)
    ensures Valid(s) && s.n > 0 ==> r.index == Int(if s.index.v == 0 then s.n - 1 else s.index.v - 1)
    ensures s.n == 0 ==> r.index == NaN
  {
    GoTo(s, Plus(s.index, -1))
  }

  /** One tick of the auto-advance interval, which runs only while not
      paused and with more than one slide. */
  function Tick(s: State): (r: State)
    ensures s.paused || s.n <= 1 ==> r == s
    ensures Valid(s) && !s.paused && s.n > 1 ==> r == Next(s)
  {
    if s.paused || s.n <= 1 then s
    else
      var r := s.(index := Rem(Plus(s.index, 1), s.n));
      if Valid(s) then
        ModSmall(s.index.v + 1, s.n);
        r
      else
        r
  }

  /** The keydown listener: ArrowRight is next, ArrowLeft is prev. */
  function KeyDown(s: State, key: string): (r: State)
    ensures key != "ArrowRight" && key != "ArrowLeft" ==> r == s
    ensures key == "ArrowRight" ==> r == Next(s)
    ensures key == "ArrowLeft" ==> r == Prev(s)
    ensures Valid(s) && s.n > 0 && key == "ArrowRight" ==>
              r.index == Int(if s.index.v == s.n - 1 then 0 else s.index.v + 1)
    ensures Valid(s) && s.n > 0 && key == "ArrowLeft" ==>
              r.index == Int(if s.index.v == 0 then s.n - 1 else s.index.v - 1)
  {
    if key == "ArrowRight" then Next(s)
    else if key == "ArrowLeft" then Prev(s)
    else s
  }

  function TouchStart(s: State, x: real): (r: State)
    ensures r.touchStartX == Some(x) && r.touchDeltaX == 0.0 && r.paused
    ensures r.n == s.n && r.index == s.index
  {
    s.(touchStartX := Some(x), touchDeltaX := 0.0, paused := true)
  }

  function TouchMove(s: State, x: real): (r: State)
    ensures s.touchStartX.None? ==> r == s
    ensures s.touchStartX.Some? ==> r == s.(touchDeltaX := x - s.touchStartX.value)
  {
    match s.touchStartX
    case None => s
    case Some(start) => s.(touchDeltaX := x - start)
  }

  /** Touch end: the refs are reset, a swipe beyond the threshold moves one
      slide (leftwards is next), and the carousel resumes. */
  function TouchEnd(s: State): (r: State)
    ensures r.touchStartX.None? && r.touchDeltaX == 0.0 && !r.paused
    ensures r.n == s.n
    ensures s.touchDeltaX < -SwipeThreshold ==> r.index == Next(s).index
    ensures s.touchDeltaX > SwipeThreshold ==> r.index == Prev(s).index
    ensures -SwipeThreshold <= s.touchDeltaX <= SwipeThreshold ==> r.index == s.index
  {
    var dx := s.touchDeltaX;
    var s' := s.(touchStartX := None, touchDeltaX := 0.0);
    var moved := if Abs(dx) > SwipeThreshold then (if dx < 0.0 then Next(s') else Prev(s')) else s';
    moved.(paused := false)
  }

  function Abs(x: real): real {
    if x < 0.0 then -x else x
  }

  /** What the user and the timer can do to the carousel. */
  datatype Event =
    | NextClick | PrevClick | Dot(i: int) | Interval | Key(key: string)
    | TouchBegin(x: real) | TouchDrag(x: real) | TouchRelease | MouseEnter | MouseLeave

  /** Events the page can deliver: dots exist only for slide positions. */
  predicate Possible(n: nat, e: Event) {
    e.Dot? ==> 0 <= e.i < n
  }

  function Step(s: State, e: Event): (r: State)
    requires Possible(s.n, e)
    ensures r.n == s.n
    ensures Valid(s) ==> Valid(r)
    ensures e.MouseEnter? ==> r == s.(paused := true)
    ensures e.MouseLeave? ==> r == s.(paused := false)
  {
    match e
    case NextClick => Next(s)
    case PrevClick => Prev(s)
    case Dot(i) => GoTo(s, Int(i))
    case Interval => Tick(s)
    case Key(key) => KeyDown(s, key)
    case TouchBegin(x) => TouchStart(s, x)
    case TouchDrag(x) => TouchMove(s, x)
    case TouchRelease => TouchEnd(s)
    case MouseEnter => s.(paused := true)
    case MouseLeave => s.(paused := false)
  }

  /** The state after a sequence of events. */
  function Run(s: State, es: seq<Event>): (r: State)
    requires forall k :: 0 <= k < |es| ==> Possible(s.n, es[k])
    ensures r.n == s.n
    ensures Valid(s) ==> Valid(r)
    decreases |es|
  {
    if es == [] then s
    else
      var s' := Step(s, es[0]);
      assert forall k :: 0 <= k < |es[1..]| ==> es[1..][k] == es[k + 1];
      Run(s', es[1..])
  }

  /** Every state the carousel reaches keeps its index on a slide. */
  lemma ReachableValid(n: nat, es: seq<Event>)
    requires forall k :: 0 <= k < |es| ==> Possible(n, es[k])
    ensures Valid(Run(Init(n), es))
  {
  }

  /** `next` from the last slide wraps to the first; `prev` from the first
      wraps to the last. */
  lemma Wraps(s: State)
    requires Valid(s) && s.n > 0
    ensures s.index == Int(s.n - 1) ==> Next(s).index == Int(0)
    ensures s.index == Int(0) ==> Prev(s).index == Int(s.n - 1)
  {
  }

  /** `prev` undoes `next` and `next` undoes `prev`. */
  lemma PrevNextInverse(s: State)
    requires Valid(s) && s.n > 0
    ensures Prev(Next(s)).index == s.index
    ensures Next(Prev(s)).index == s.index
  {
  }

  /** `k` clicks on next, from a valid state, land on `(index + k) % n`. */
  lemma {:induction false} NextIterated(s: State, k: nat)
    requires Valid(s) && s.n > 0
    ensures Run(s, seq(k, _ => NextClick)).index == Int((s.index.v + k) % s.n)
    decreases k
  {
    var es := seq(k, _ => NextClick);
    if k == 0 {
      ModSmall(s.index.v, s.n);
    } else {
      assert es[1..] == seq(k - 1, _ => NextClick);
      var s' := Next(s);
      NextIterated(s', k - 1);
      if s.index.v == s.n - 1 {
        ModPlusDivisor(k - 1, s.n);
        assert s.index.v + k == (k - 1) + s.n;
      }
    }
  }

  /** Clicking next `n` times comes back to the starting slide. */
  lemma FullCycle(s: State)
    requires Valid(s) && s.n > 0
    ensures Run(s, seq(s.n, _ => NextClick)).index == s.index
  {
    NextIterated(s, s.n);
    ModSmall(s.index.v + s.n, s.n);
  }

  /** A dot click selects exactly that slide. */
  lemma DotSelects(s: State, i: int)
    requires 0 <= i < s.n
    ensures Step(s, Dot(i)).index == Int(i)
  {
  }

  /** A release after a swipe of `dx`: leftwards beyond 50 px is next,
      rightwards beyond 50 px is prev, anything shorter leaves the index. */
  lemma SwipeOutcome(s: State, start: real, x: real)
    requires Valid(s) && s.n > 0 && s.touchStartX == Some(start)
    ensures var dx := x - start;
            var r := TouchEnd(TouchMove(s, x));
            && (dx < -SwipeThreshold ==> r.index == Next(s).index)
            && (dx > SwipeThreshold ==> r.index == Prev(s).index)
            && (-SwipeThreshold <= dx <= SwipeThreshold ==> r.index == s.index)
  {
  }

  /** `goTo` keeps its promise only for targets no lower than `-n`: further
      down, JavaScript's remainder is negative (with two or more slides). The page's callers pass
      `index ± 1` and dot positions, which stay within that bound. */
  lemma GoToBelowRange(s: State)
    requires s.n > 0
    ensures GoTo(s, Int(-1 - s.n)).index == (if s.n == 1 then Int(0) else Int(-1))
  {
    if s.n > 1 {
      ModSmall(1, s.n);
    }
  }

  /** With no slides, `next` makes the index NaN. */
  lemma EmptyNextIsNaN(s: State)
    requires s.n == 0
    ensures Next(s).index == NaN
  {
  }
}
