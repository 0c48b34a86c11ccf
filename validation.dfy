/**
 * The parameter validators of the REST server. Each takes a JavaScript value and answers whether
 * it is acceptable. On the values modelled here (numbers, strings, booleans, null, undefined and
 * plain objects) none of them throws.
 */
module Validation {

  /** A JavaScript value as far as the validators look at it. Numbers are IEEE doubles in
      JavaScript; here a finite number is its exact real value (so -0 and 0 are one value). */
  datatype JsValue =
    | Num(x: real)
    | NaN
    | Infinity(negative: bool)
    | Str(s: string)
    | Bool(b: bool)
    | Null
    | Undefined
    | Object

  /** `typeof v === 'number'`. */
  predicate IsNumber(v: JsValue) {
    v.Num? || v.NaN? || v.Infinity?
  }

  /** What `if (v)` decides: 0, NaN, "", false, null and undefined are falsy. */
  predicate Truthy(v: JsValue) {
    match v
    case Num(x) => x != 0.0
    case NaN => false
    case Infinity(_) => true
    case Str(s) => s != ""
    case Bool(b) => b
    case Null => false
    case Undefined => false
    case Object => true
  }

  /** `a < b` on two numbers: false whenever either is NaN. */
  predicate Less(a: JsValue, b: JsValue)
    requires IsNumber(a) && IsNumber(b)
  {
    match (a, b)
    case (NaN, _) => false
    case (_, NaN) => false
    case (Infinity(n), Infinity(n')) => n && !n'
    case (Infinity(n), Num(_)) => n
    case (Num(_), Infinity(n')) => !n'
    case (Num(x), Num(y)) => x < y
  }

  /** `a === b` on two numbers. */
  predicate StrictEquals(a: JsValue, b: JsValue)
    requires IsNumber(a) && IsNumber(b)
  {
    !a.NaN? && !b.NaN? && a == b
  }

  // ----- validateNumberParameter -----

  /** `validateNumberParameter(param, min, max)`: a number other than NaN, not below a truthy `min`
      and not above a truthy `max`. A bound of 0 is falsy and therefore never checked. */
  function ValidateNumberParameter(param: JsValue, min: JsValue := Undefined, max: JsValue := Undefined): (valid: bool)
    requires IsNumber(min) || min.Undefined?
    requires IsNumber(max) || max.Undefined?
    ensures valid ==> IsNumber(param) && !param.NaN?
    ensures min.Undefined? && max.Undefined? ==> (valid <==> IsNumber(param) && !param.NaN?)
    ensures param.Num? && (min.Num? || min.Undefined?) && (max.Num? || max.Undefined?) ==>
      (valid <==> (min.Num? && min.x != 0.0 ==> min.x <= param.x) && (max.Num? && max.x != 0.0 ==> param.x <= max.x))
    ensures param.Infinity? && (min.Num? || min.Undefined?) && (max.Num? || max.Undefined?) ==>
      (valid <==> (param.negative ==> !(min.Num? && min.x != 0.0)) && (!param.negative ==> !(max.Num? && max.x != 0.0)))
  {
    var valid := IsNumber(param) && !param.NaN?;
    valid && !(Truthy(min) && Less(param, min)) && !(Truthy(max) && Less(max, param))
  }

  /** The number check as evidently intended by callers that pass 0 as a minimum: a bound is
      checked whenever it is given. */
  function ValidateNumberBounded(param: JsValue, min: JsValue := Undefined, max: JsValue := Undefined): (valid: bool)
    requires IsNumber(min) || min.Undefined?
    requires IsNumber(max) || max.Undefined?
    ensures valid ==> IsNumber(param) && !param.NaN?
    ensures valid && param.Num? && min.Num? ==> min.x <= param.x
    ensures valid && param.Num? && max.Num? ==> param.x <= max.x
    ensures min.Undefined? && max.Undefined? ==> (valid <==> IsNumber(param) && !param.NaN?)
    ensures param.Num? && (min.Num? || min.Undefined?) && (max.Num? || max.Undefined?) ==>
      (valid <==> (min.Num? ==> min.x <= param.x) && (max.Num? ==> param.x <= max.x))
    ensures param.Infinity? && (min.Num? || min.Undefined?) && (max.Num? || max.Undefined?) ==>
      (valid <==> (param.negative ==> min.Undefined?) && (!param.negative ==> max.Undefined?))
  {
    IsNumber(param) && !param.NaN? && !(!min.Undefined? && Less(param, min)) && !(!max.Undefined? && Less(max, param))
  }

  /** NaN and infinite bounds, in both checks: a NaN bound, a minimum of -Infinity and a maximum of
      +Infinity exclude nothing; a minimum of +Infinity admits only +Infinity and a maximum of
      -Infinity only -Infinity. With the cases for finite and absent bounds, this settles every call. */
  lemma NumberNonFiniteBounds(param: JsValue, bound: JsValue)
    requires IsNumber(bound) || bound.Undefined?
    ensures ValidateNumberParameter(param, NaN, bound) == ValidateNumberParameter(param, Undefined, bound)
    ensures ValidateNumberParameter(param, bound, NaN) == ValidateNumberParameter(param, bound, Undefined)
    ensures ValidateNumberParameter(param, Infinity(true), bound) == ValidateNumberParameter(param, Undefined, bound)
    ensures ValidateNumberParameter(param, bound, Infinity(false)) == ValidateNumberParameter(param, bound, Undefined)
    ensures ValidateNumberParameter(param, Infinity(false), bound) ==
      (param == Infinity(false) && ValidateNumberParameter(param, Undefined, bound))
    ensures ValidateNumberParameter(param, bound, Infinity(true)) ==
      (param == Infinity(true) && ValidateNumberParameter(param, bound, Undefined))
    ensures ValidateNumberBounded(param, NaN, bound) == ValidateNumberBounded(param, Undefined, bound)
    ensures ValidateNumberBounded(param, bound, NaN) == ValidateNumberBounded(param, bound, Undefined)
    ensures ValidateNumberBounded(param, Infinity(true), bound) == ValidateNumberBounded(param, Undefined, bound)
    ensures ValidateNumberBounded(param, bound, Infinity(false)) == ValidateNumberBounded(param, bound, Undefined)
    ensures ValidateNumberBounded(param, Infinity(false), bound) ==
      (param == Infinity(false) && ValidateNumberBounded(param, Undefined, bound))
    ensures ValidateNumberBounded(param, bound, Infinity(true)) ==
      (param == Infinity(true) && ValidateNumberBounded(param, bound, Undefined))
  {
  }

  /** `setState` passes 0 and 4 as bounds: +Infinity is refused by the maximum, and -Infinity slips
      past the minimum of 0 as written while the intended check refuses it. */
  lemma InfiniteStateScenario()
    ensures !ValidateNumberParameter(Infinity(false), Num(0.0), Num(4.0))
    ensures ValidateNumberParameter(Infinity(true), Num(0.0), Num(4.0))
    ensures !ValidateNumberBounded(Infinity(true), Num(0.0), Num(4.0))
  {
  }

  /** The two checks differ only where a bound is 0. */
  lemma BoundedAgreesAwayFromZero(param: JsValue, min: JsValue, max: JsValue)
    requires IsNumber(min) || min.Undefined?
    requires IsNumber(max) || max.Undefined?
    requires min != Num(0.0) && max != Num(0.0)
    ensures ValidateNumberParameter(param, min, max) == ValidateNumberBounded(param, min, max)
  {
  }

  /** A bound of 0 is the same as no bound. */
  lemma NumberZeroBoundUnchecked(param: JsValue, bound: JsValue)
    requires IsNumber(bound) || bound.Undefined?
    ensures ValidateNumberParameter(param, Num(0.0), bound) == ValidateNumberParameter(param, Undefined, bound)
    ensures ValidateNumberParameter(param, bound, Num(0.0)) == ValidateNumberParameter(param, bound, Undefined)
  {
  }

  /** A negative number passes a minimum of 0, which the intended check refuses. */
  lemma ZeroMinimumNotEnforced()
    ensures ValidateNumberParameter(Num(-5.0), Num(0.0))
    ensures !ValidateNumberBounded(Num(-5.0), Num(0.0))
  {
  }

  // ----- validateIntegerParameter -----

  predicate IsWhole(x: real) {
    x.Floor as real == x
  }

  /** Rounding toward zero. */
  function Trunc(x: real): (t: int)
    ensures IsWhole(x) ==> t as real == x
    ensures -1.0 < x - t as real < 1.0
  {
    if x >= 0.0 then x.Floor
    else
      var n := x.Floor;
      assert IsWhole(x) ==> (-x).Floor == -n;
      -((-x).Floor)
  }

  /** JavaScript prints a finite number in plain decimal notation exactly when it is 0 or its
      magnitude lies in [10^-6, 10^21); otherwise in exponent notation "d.ddde±n". */
  predicate PlainNotation(x: real) {
    x == 0.0 || (0.000001 <= x < 1_000_000_000_000_000_000_000.0) || (-1_000_000_000_000_000_000_000.0 < x <= -0.000001)
  }

  /** The first significant digit of a number at least 1. */
  function DigitAbove(y: real): (d: int)
    requires y >= 1.0
    ensures 1 <= d <= 9
    decreases y.Floor
  {
    if y < 10.0 then y.Floor else DigitAbove(y / 10.0)
  }

  /** The first significant digit of a positive number below 1. */
  function DigitBelow(y: real): (d: int)
    requires 0.0 < y < 1.0
    ensures 1 <= d <= 9
    decreases (1.0 / y).Floor
  {
    assert 1.0 / (10.0 * y) == (1.0 / y) / 10.0;
    if 10.0 * y >= 1.0 then DigitAbove(10.0 * y) else DigitBelow(10.0 * y)
  }

  /** The first significant digit of a nonzero number's magnitude. */
  function LeadingDigit(x: real): (d: int)
    requires x != 0.0
    ensures 1 <= d <= 9
  {
    var y := if x < 0.0 then -x else x;
    if y >= 1.0 then DigitAbove(y) else DigitBelow(y)
  }

  /** `parseInt(param)` for a number: it parses the leading integer of `String(param)`, which is
      the number rounded toward zero in plain notation and its first significant digit (with its
      sign) in exponent notation; "NaN" and "Infinity" hold no digits. */
  function ParseIntOfNumber(param: JsValue): (r: JsValue)
    requires IsNumber(param)
    ensures IsNumber(r)
  {
    match param
    case NaN => NaN
    case Infinity(_) => NaN
    case Num(x) =>
      if PlainNotation(x) then Num(Trunc(x) as real)
      else Num((if x < 0.0 then -LeadingDigit(x) else LeadingDigit(x)) as real)
  }

  /** `validateIntegerParameter(param)`: a number other than NaN that `parseInt` gives back unchanged.
      Exactly the whole numbers below 10^21 in magnitude pass; NaN, the infinities, fractions,
      huge numbers and every non-number fail. */
  function ValidateIntegerParameter(param: JsValue): (valid: bool)
    ensures valid <==>
      param.Num? && IsWhole(param.x) && -1_000_000_000_000_000_000_000.0 < param.x < 1_000_000_000_000_000_000_000.0
  {
    IsNumber(param) && !param.NaN? && StrictEquals(param, ParseIntOfNumber(param))
  }

  // ----- validateBooleanParameter -----

  /** `validateBooleanParameter(param)`: `typeof param === 'boolean'`. */
  function ValidateBooleanParameter(param: JsValue): (valid: bool)
    ensures valid <==> param == Bool(true) || param == Bool(false)
  {
    param.Bool?
  }

  // ----- validateStringParameter -----

  /** `validateStringParameter(param, emptyAllowed)`: a string, and not "" unless `emptyAllowed` is
      truthy; an absent `emptyAllowed` counts as false. */
  function ValidateStringParameter(param: JsValue, emptyAllowed: JsValue := Undefined): (valid: bool)
    ensures !param.Str? ==> !valid
    ensures param.Str? && param.s != "" ==> valid
    ensures param == Str("") ==> (valid <==> Truthy(emptyAllowed))
  {
    var allowed := if emptyAllowed.Undefined? then Bool(false) else emptyAllowed;
    var valid := param.Str?;
    valid && !(!Truthy(allowed) && param == Str(""))
  }

  /** The empty string with `emptyAllowed` absent, true and false. */
  lemma StringParameterScenarios()
    ensures !ValidateStringParameter(Str(""))
    ensures ValidateStringParameter(Str(""), Bool(true))
    ensures !ValidateStringParameter(Str(""), Bool(false))
    ensures ValidateStringParameter(Str("")) == ValidateStringParameter(Str(""), Bool(false))
  {
  }
}
