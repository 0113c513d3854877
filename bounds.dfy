/**
 * Bounds resolution and the draw of one operand (steps C to F of the generation loop):
 * the natural range of a digit count, the limit override, the `max < min` repair, the draw
 * `Math.floor(Math.random() * (max - min + 1)) + min` and the safety clamp to the limit.
 */
module Bounds {
  import opened Wrappers
  import opened JsBuiltins
  import opened TermSpec

  /** An inclusive integer range. */
  datatype Range = Range(min: int, max: int)

  /**
   * Resolved bounds of a term. `NonInteger` stands for the bounds the source computes from a
   * digit count below one (10^-1 = 0.1, ...) or from NaN when no limit applies: the operand drawn
   * from them is not an integer, and the model does not follow it.
   */
  datatype Resolved = Integral(range: Range) | NonInteger

  /** `if (max < min) max = min;` */
  function Repair(min: int, max: int): (r: Range)
    ensures r.min == min && r.min <= r.max
    ensures max >= min ==> r.max == max
    ensures max < min ==> r.max == min
  {
    Range(min, if max < min then min else max)
  }

  /**
   * Steps C to E: the natural range [10^(d-1), 10^d - 1] (with minimum 1 for one digit); a limit
   * replaces it by [1, limit] whatever the digit count; then the repair.
   */
  function Resolve(digitCount: Option<int>, limit: Option<int>): (b: Resolved)
    ensures b.NonInteger? <==> limit.None? && (digitCount.None? || digitCount.value < 1)
    ensures b.Integral? ==> b.range.min <= b.range.max
    ensures limit.Some? ==> b.Integral? && b.range.min == 1
    ensures limit.Some? && limit.value >= 1 ==> b.range.max == limit.value
    ensures limit.Some? && limit.value < 1 ==> b.range.max == 1
    ensures limit.None? && b.Integral? ==>
      && b.range.min == Pow10(digitCount.value - 1) >= 1
      && b.range.max == Pow10(digitCount.value) - 1
  {
    match limit
    case Some(cap) => Integral(Repair(1, cap))
    case None =>
      match digitCount
      case None => NonInteger
      case Some(d) =>
        if d >= 1 then
          Pow10Monotone(d - 1, d);
          NinesWidth(d);
          assert Pow10(d) == 10 * Pow10(d - 1);
          Integral(Repair(if d == 1 then 1 else Pow10(d - 1), Pow10(d) - 1))
        else NonInteger
  }

  /**
   * Without a limit, the range of a digit count `d >= 1` holds exactly the positive numbers
   * written with `d` digits: never 0 or a negative number.
   */
  lemma NaturalRangeIsDigitWidth(d: nat, v: int)
    requires d >= 1
    ensures Resolve(Some(d), None).Integral?
    ensures var r := Resolve(Some(d), None).range;
      r.min <= v <= r.max <==> v >= 1 && |IntToString(v)| == d
  {
    assert Pow10(d) == 10 * Pow10(d - 1);
    Pow10Monotone(0, d - 1);
    if v >= 1 {
      WidthIffRange(v, d);
    }
  }

  /** The placeholder entry of a digit count is the largest value the generator draws for it without a limit. */
  lemma PlaceholderIsNaturalMax(d: nat)
    requires d >= 1
    ensures PlaceholderEntry(Some(d)) == Some(Resolve(Some(d), None).range.max)
  {
    assert Pow10(d) == 10 * Pow10(d - 1);
    Pow10Monotone(d - 1, d);
  }

  /** A result of `Math.random()`: a number in [0, 1). */
  type Random = u: real | 0.0 <= u < 1.0

  /** `Math.floor(u * size)` for `u = Math.random()`. */
  function Offset(u: Random, size: nat): (k: int)
    requires size >= 1
    ensures 0 <= k < size
  {
    var x := u * size as real;
    ScaledBelow(u, size as real);
    x.Floor
  }

  /** Scaling by a number in [0, 1) stays within [0, s). */
  lemma ScaledBelow(u: real, s: real)
    requires 0.0 <= u < 1.0 && s > 0.0
    ensures 0.0 <= u * s < s
  {
    var gap := 1.0 - u;
    assert s - u * s == gap * s;
    assert gap * s > 0.0;
  }

  /** Steps E and F: the drawn operand, then the clamp to the limit when one is set. */
  function Draw(r: Range, u: Random, limit: Option<int>): (n: int)
    requires r.min <= r.max
    ensures limit.None? ==> r.min <= n <= r.max
    ensures limit.Some? ==> n <= limit.value && (n == limit.value || r.min <= n <= r.max)
  {
    var number := Offset(u, r.max - r.min + 1) + r.min;
    if limit.Some? && number > limit.value then limit.value else number
  }

  /** Every value of a range is drawn for some `Math.random()` result: the draw misses no value. */
  lemma DrawReachesEveryValue(r: Range, v: int)
    requires r.min <= v <= r.max
    ensures var u := (v - r.min) as real / (r.max - r.min + 1) as real;
      0.0 <= u < 1.0 && Draw(r, u as Random, None) == v
  {
    var size := r.max - r.min + 1;
    var k := v - r.min;
    var u := k as real / size as real;
    assert u * size as real == k as real;
    assert u < 1.0 by {
      assert k as real < size as real;
    }
  }

  /** The operand for term `j`, drawn with `u`; `None` when its bounds are not integral. */
  function TermValue(counts: seq<Option<int>>, limits: seq<Option<int>>, j: nat, u: Random): Option<int>
    requires |counts| > 0
  {
    var limit := LimitAt(limits, j);
    match Resolve(DigitCountAt(counts, j), limit)
    case NonInteger => None
    case Integral(r) => Some(Draw(r, u, limit))
  }

  /**
   * What a drawn operand is: without a limit, a positive number with exactly the term's digit count;
   * with a limit `L >= 1`, a number in [1, L]; with a limit `L < 1`, `L` itself. It is missing
   * exactly when no limit applies and the digit count is NaN or below one.
   */
  lemma TermValueMeaning(counts: seq<Option<int>>, limits: seq<Option<int>>, j: nat, u: Random)
    requires |counts| > 0
    ensures var limit := LimitAt(limits, j);
      var d := DigitCountAt(counts, j);
      && (TermValue(counts, limits, j, u).None? <==> limit.None? && (d.None? || d.value < 1))
      && (TermValue(counts, limits, j, u).Some? && limit.None? ==>
            TermValue(counts, limits, j, u).value >= 1
            && |IntToString(TermValue(counts, limits, j, u).value)| == d.value)
      && (limit.Some? && limit.value >= 1 ==> 1 <= TermValue(counts, limits, j, u).value <= limit.value)
      && (limit.Some? && limit.value < 1 ==> TermValue(counts, limits, j, u).value == limit.value)
  {
    var limit := LimitAt(limits, j);
    var d := DigitCountAt(counts, j);
    var t := TermValue(counts, limits, j, u);
    if t.Some? && limit.None? {
      var r := Resolve(d, None).range;
      assert r.min <= t.value <= r.max;
      assert r.min >= 1 by { Pow10Monotone(0, d.value - 1); }
      NaturalRangeIsDigitWidth(d.value, t.value);
    }
  }
}
