/** The slice of JavaScript value semantics the pages and routes rely on:
    possibly-absent strings, truthiness, the `||` fallback operator, template
    interpolation, and the number operations behind the carousel's `%`. */
module Js {

  /** A value that may be `undefined`/`null` (None) or present (Some). */
  datatype Option<+T> = None | Some(value: T)

  /** JavaScript truthiness of a possibly-absent string: present and non-empty. */
  predicate Truthy(v: Option<string>) {
    v.Some? && v.value != ""
  }

  /** `v || fallback`: the value itself when truthy, the fallback otherwise. */
  function Or(v: Option<string>, fallback: string): (r: string)
    ensures Truthy(v) ==> r == v.value
    ensures !Truthy(v) ==> r == fallback
    ensures fallback != "" ==> r != ""
  {
    if Truthy(v) then v.value else fallback
  }

  /** `vs[0] || vs[1] || ... || fallback`: the first truthy value of the chain. */
  function FirstTruthy(vs: seq<Option<string>>, fallback: string): (r: string)
    ensures fallback != "" ==> r != ""
    ensures forall k :: 0 <= k < |vs| && Truthy(vs[k]) && NoneTruthyBefore(vs, k) ==> r == vs[k].value
    ensures NoneTruthyBefore(vs, |vs|) ==> r == fallback
    decreases |vs|
  {
    if |vs| == 0 then fallback
    else if Truthy(vs[0]) then vs[0].value
    else
      var r := FirstTruthy(vs[1..], fallback);
      assert forall k :: 1 <= k <= |vs| && NoneTruthyBefore(vs, k) ==> NoneTruthyBefore(vs[1..], k - 1);
      r
  }

  /** No value among the first `k` of `vs` is truthy. */
  predicate NoneTruthyBefore(vs: seq<Option<string>>, k: int)
    requires 0 <= k <= |vs|
  {
    forall j :: 0 <= j < k ==> !Truthy(vs[j])
  }

  /** `${v}` in a template literal: a missing value prints as "undefined". */
  function Interpolate(v: Option<string>): (r: string)
    ensures v.Some? ==> r == v.value
    ensures v.None? ==> r == "undefined"
  {
    match v
    case Some(s) => s
    case None => "undefined"
  }

  /** A JavaScript number restricted to what the carousel can produce:
      an integer, or NaN once a remainder by zero has been taken. */
  datatype Num = Int(v: int) | NaN

  /** `a + k`; NaN absorbs. */
  function Plus(a: Num, k: int): (r: Num)
    ensures r.Int? <==> a.Int?
    ensures r.Int? ==> r.v == a.v + k
  {
    match a
    case Int(x) => Int(x + k)
    case NaN => NaN
  }

  /** JavaScript's `a % d` for a divisor `d >= 0`: truncating remainder,
      whose sign follows the dividend; `x % 0` is NaN. */
  function Rem(a: Num, d: nat): (r: Num)
    ensures r.Int? <==> a.Int? && d != 0
    ensures r.Int? ==> (a.v - r.v) % d == 0
    ensures r.Int? && a.v >= 0 ==> 0 <= r.v < d && r.v == a.v % d
    ensures r.Int? && a.v < 0 ==> 0 < r.v + d && r.v <= 0
  {
    if a.NaN? || d == 0 then NaN
    else if a.v >= 0 then
      SubRemIsMultiple(a.v, d);
      Int(a.v % d)
    else
      NegativeRem(a.v, d);
      Int(-((-a.v) % d))
  }

  /** The truncating remainder of a negative dividend differs from it by a multiple of `d`. */
  lemma NegativeRem(x: int, d: nat)
    requires x < 0 && d > 0
    ensures (x - -((-x) % d)) % d == 0
  {
    var y := -x;
    var m, q := y % d, y / d;
    SubRemIsMultiple(y, d);
    assert x - -m == -(d * q);
    MultipleMod(d, q);
  }

  /** Taking the Euclidean remainder off leaves a multiple of the divisor. */
  lemma SubRemIsMultiple(x: int, d: nat)
    requires d > 0
    ensures x - x % d == d * (x / d)
    ensures (x - x % d) % d == 0
  {
    MultipleMod(d, x / d);
  }

  lemma MultipleMod(d: nat, k: int)
    requires d > 0
    ensures (d * k) % d == 0
    ensures (-(d * k)) % d == 0
  {
    ModUnique(d * k, d, k, 0);
    assert -(d * k) == d * -k;
    ModUnique(-(d * k), d, -k, 0);
  }

  lemma {:induction false} MulAtLeast(d: nat, t: int)
    requires t >= 1
    ensures d * t >= d
    decreases t
  {
    if t > 1 {
      MulAtLeast(d, t - 1);
      assert d * t == d * (t - 1) + d;
    }
  }

  /** Division with remainder is unique: a remainder in [0, d) that
      reconstructs `x` is `x % d`. */
  lemma ModUnique(x: int, d: nat, q: int, r: int)
    requires d > 0 && 0 <= r < d && x == d * q + r
    ensures x % d == r
  {
    var q', r' := x / d, x % d;
    assert d * q' + r' == x;
    var t := q - q';
    assert d * t == r' - r by {
      assert d * t == d * q - d * q';
    }
    if t >= 1 {
      MulAtLeast(d, t);
    } else if t <= -1 {
      MulAtLeast(d, -t);
    }
  }

  /** Adding the divisor does not change the remainder. */
  lemma ModPlusDivisor(x: nat, d: nat)
    requires d > 0
    ensures (x + d) % d == x % d
  {
    var q := x / d;
    assert x == d * q + x % d;
    assert x + d == d * (q + 1) + x % d;
    ModUnique(x + d, d, q + 1, x % d);
  }

  /** The remainder of a value in [0, 2d]. */
  lemma ModSmall(x: int, d: nat)
    requires d > 0 && 0 <= x <= 2 * d
    ensures x % d == (if x < d then x else if x < 2 * d then x - d else 0)
  {
    if x < d {
      ModUnique(x, d, 0, x);
    } else if x < 2 * d {
      ModUnique(x, d, 1, x - d);
    } else {
      ModUnique(x, d, 2, 0);
    }
  }
}
