/**
 * The operation stage of a question: the descending sort for division and subtraction, the
 * division fix-up (zero divisor, remainder, zero dividend) and the answer folds.
 */
module Operations {
  import opened Wrappers
  import opened JsBuiltins

  datatype Operation = Addition | Subtraction | Multiplication | Division

  /**
   * Why no question (or batch) comes out: the input was rejected by the validator; some value
   * is NaN or a fraction, which the model does not follow; or `reduce` was called on an empty
   * list without an initial value (a TypeError in the source).
   */
  datatype GenError = InvalidInput | NotAnInteger | EmptyReduce

  /** The operands after the operation stage, and the answer. */
  datatype Solved = Solved(numbers: seq<int>, answer: int)

  predicate Descending(s: seq<int>) {
    forall i, j :: 0 <= i < j < |s| ==> s[i] >= s[j]
  }

  // ---------------------------------------------------------------------------
  // numbers.sort((a, b) => b - a)

  function Insert(x: int, s: seq<int>): (r: seq<int>)
    ensures multiset(r) == multiset(s) + multiset{x}
  {
    if s == [] || x >= s[0] then [x] + s
    else
      assert s == [s[0]] + s[1..];
      [s[0]] + Insert(x, s[1..])
  }

  /** Inserting a value no larger than a bound into a list bounded by it keeps the bound. */
  lemma {:induction false} InsertBounded(x: int, s: seq<int>, bound: int)
    requires x <= bound
    requires forall k :: 0 <= k < |s| ==> s[k] <= bound
    ensures |Insert(x, s)| == |s| + 1
    ensures forall k :: 0 <= k < |Insert(x, s)| ==> Insert(x, s)[k] <= bound
  {
    if !(s == [] || x >= s[0]) {
      InsertBounded(x, s[1..], bound);
    }
  }

  lemma {:induction false} InsertDescending(x: int, s: seq<int>)
    requires Descending(s)
    ensures Descending(Insert(x, s))
  {
    if !(s == [] || x >= s[0]) {
      var rest := Insert(x, s[1..]);
      InsertDescending(x, s[1..]);
      InsertBounded(x, s[1..], s[0]);
      assert Insert(x, s) == [s[0]] + rest;
    }
  }

  /**
   * The library sort with the comparator `b - a`, on integers: the operands in descending order.
   * Any algorithm gives the same list, since a descending permutation is unique.
   */
  function SortDescending(s: seq<int>): (r: seq<int>)
    ensures Descending(r)
    ensures multiset(r) == multiset(s)
  {
    if s == [] then []
    else
      assert s == [s[0]] + s[1..];
      var rest := SortDescending(s[1..]);
      InsertDescending(s[0], rest);
      Insert(s[0], rest)
  }

  lemma SortedLength(s: seq<int>)
    ensures |SortDescending(s)| == |s|
  {
    assert |multiset(SortDescending(s))| == |multiset(s)|;
  }

  /** Every element of a descending list is at most its head. */
  lemma HeadIsMaximum(a: seq<int>, v: int)
    requires Descending(a) && v in multiset(a)
    ensures a != [] && v <= a[0]
  {
    assert v in a;
  }

  /** Two descending lists with the same elements are equal. */
  lemma {:induction false} DescendingPermutationUnique(a: seq<int>, b: seq<int>)
    requires Descending(a) && Descending(b)
    requires multiset(a) == multiset(b)
    ensures a == b
  {
    if a == [] {
      assert |multiset(b)| == 0;
    } else {
      assert a[0] in multiset(a);
      HeadIsMaximum(b, a[0]);
      assert b[0] in multiset(b);
      HeadIsMaximum(a, b[0]);
      assert a[0] == b[0];
      assert a == [a[0]] + a[1..];
      assert b == [b[0]] + b[1..];
      assert multiset(a) == multiset{a[0]} + multiset(a[1..]);
      assert multiset(b) == multiset{a[0]} + multiset(b[1..]);
      assert multiset(a[1..]) == multiset(a) - multiset{a[0]};
      assert multiset(b[1..]) == multiset(b) - multiset{a[0]};
      DescendingPermutationUnique(a[1..], b[1..]);
    }
  }

  // ---------------------------------------------------------------------------
  // answer folds

  /** Reference sum and product, independent of the folds the source uses. */
  function Sum(s: seq<int>): int {
    if s == [] then 0 else s[0] + Sum(s[1..])
  }

  function Product(s: seq<int>): int {
    if s == [] then 1 else s[0] * Product(s[1..])
  }

  /** `reduce((a, b) => a + b, acc)` */
  function AddFrom(acc: int, s: seq<int>): int
    decreases |s|
  {
    if s == [] then acc else AddFrom(acc + s[0], s[1..])
  }

  /** `reduce((a, b) => a - b, acc)` */
  function SubtractFrom(acc: int, s: seq<int>): int
    decreases |s|
  {
    if s == [] then acc else SubtractFrom(acc - s[0], s[1..])
  }

  /** `reduce((a, b) => a * b, acc)` */
  function MultiplyFrom(acc: int, s: seq<int>): int
    decreases |s|
  {
    if s == [] then acc else MultiplyFrom(acc * s[0], s[1..])
  }

  lemma {:induction false} AddFromIsSum(acc: int, s: seq<int>)
    ensures AddFrom(acc, s) == acc + Sum(s)
    decreases |s|
  {
    if s != [] {
      AddFromIsSum(acc + s[0], s[1..]);
    }
  }

  lemma {:induction false} SubtractFromIsDifference(acc: int, s: seq<int>)
    ensures SubtractFrom(acc, s) == acc - Sum(s)
    decreases |s|
  {
    if s != [] {
      SubtractFromIsDifference(acc - s[0], s[1..]);
    }
  }

  lemma {:induction false} MultiplyFromIsProduct(acc: int, s: seq<int>)
    ensures MultiplyFrom(acc, s) == acc * Product(s)
    decreases |s|
  {
    if s != [] {
      MultiplyFromIsProduct(acc * s[0], s[1..]);
      assert (acc * s[0]) * Product(s[1..]) == acc * (s[0] * Product(s[1..]));
    }
  }

  // ---------------------------------------------------------------------------
  // the operation stage

  /**
   * The division fix-up on sorted operands: a zero divisor becomes 1, the dividend loses its
   * remainder (JavaScript's `%`), and a dividend left at 0 becomes twice the divisor.
   */
  function DivisionFixUp(sorted: seq<int>): (fixed: seq<int>)
    requires |sorted| >= 2
    ensures |fixed| == |sorted|
  {
    var divisor := if sorted[1] == 0 then 1 else sorted[1];
    var reduced := sorted[0] - JsRem(sorted[0], divisor);
    var dividend := if reduced == 0 then divisor * 2 else reduced;
    sorted[1 := divisor][0 := dividend]
  }

  /**
   * The operands after the operation stage. Division with fewer than two operands makes the
   * source compute with `undefined`, which gives NaN.
   */
  function Arrange(op: Operation, drawn: seq<int>): Result<seq<int>, GenError> {
    match op
    case Division =>
      var sorted := SortDescending(drawn);
      if |sorted| < 2 then Failure(NotAnInteger) else Success(DivisionFixUp(sorted))
    case Subtraction => Success(SortDescending(drawn))
    case _ => Success(drawn)
  }

  /**
   * The answer: a fold with `+` from 0, a fold with `-` from the first operand (a TypeError on
   * an empty list), a fold with `*` from 1, or `numbers[0] / numbers[1]`, which is an integer
   * only for a non-zero divisor that leaves no remainder.
   */
  function AnswerOf(op: Operation, numbers: seq<int>): Result<int, GenError> {
    match op
    case Addition => Success(AddFrom(0, numbers))
    case Subtraction =>
      if numbers == [] then Failure(EmptyReduce) else Success(SubtractFrom(numbers[0], numbers[1..]))
    case Multiplication => Success(MultiplyFrom(1, numbers))
    case Division =>
      if |numbers| < 2 || numbers[1] == 0 || JsRem(numbers[0], numbers[1]) != 0 then Failure(NotAnInteger)
      else Success(TruncQuotient(numbers[0], numbers[1]))
  }

  /** Arrange, then answer. */
  function Solve(op: Operation, drawn: seq<int>): Result<Solved, GenError> {
    match Arrange(op, drawn)
    case Failure(e) => Failure(e)
    case Success(numbers) =>
      match AnswerOf(op, numbers)
      case Failure(e) => Failure(e)
      case Success(answer) => Success(Solved(numbers, answer))
  }

  /**
   * The operation stage as the source runs it: the drawn operands are pushed into an array,
   * which is sorted and rewritten in place, then the answer is computed from it.
   */
  method ApplyOperation(op: Operation, drawn: seq<int>) returns (result: Result<Solved, GenError>)
    ensures result == Solve(op, drawn)
  {
    var numbers := new int[|drawn|](k => if 0 <= k < |drawn| then drawn[k] else 0);
    assert numbers[..] == drawn;
    var ok := ArrangeInPlace(op, numbers);
    if !ok {
      return Failure(NotAnInteger);
    }
    var answer := ComputeAnswer(op, numbers[..]);
    if answer.Failure? {
      return Failure(answer.error);
    }
    result := Success(Solved(numbers[..], answer.value));
  }

  /**
   * Operation handling on the `numbers` array: the library sort (descending) for division and
   * subtraction, then for division the in-place fix-up of divisor and dividend. It fails only
   * for division with fewer than two operands, where the source reads past the end.
   */
  method ArrangeInPlace(op: Operation, numbers: array<int>) returns (ok: bool)
    modifies numbers
    ensures ok <==> Arrange(op, old(numbers[..])).Success?
    ensures ok ==> numbers[..] == Arrange(op, old(numbers[..])).value
  {
    if op == Division || op == Subtraction {
      SortInPlace(numbers);
    }
    if op == Division {
      if numbers.Length < 2 {
        return false;
      }
      FixUpInPlace(numbers);
    }
    ok := true;
  }

  /** `numbers.sort((a, b) => b - a)`: the contents replaced by their descending arrangement. */
  method SortInPlace(numbers: array<int>)
    modifies numbers
    ensures numbers[..] == SortDescending(old(numbers[..]))
  {
    var sorted := SortDescending(numbers[..]);
    SortedLength(numbers[..]);
    forall k | 0 <= k < numbers.Length {
      numbers[k] := sorted[k];
    }
    assert numbers[..] == sorted;
  }

  /** The division fix-up, one array write at a time. */
  method FixUpInPlace(numbers: array<int>)
    requires numbers.Length >= 2
    modifies numbers
    ensures numbers[..] == DivisionFixUp(old(numbers[..]))
  {
    if numbers[1] == 0 {
      numbers[1] := 1;
    }
    var remainder := JsRem(numbers[0], numbers[1]);
    numbers[0] := numbers[0] - remainder;
    if numbers[0] == 0 {
      numbers[0] := numbers[1] * 2;
    }
  }

  /**
   * The answer computation, one branch per operation: the sum, the first operand minus the sum
   * of the rest (a TypeError on no operands), the product, or an exact quotient.
   */
  method ComputeAnswer(op: Operation, numbers: seq<int>) returns (result: Result<int, GenError>)
    ensures result == AnswerOf(op, numbers)
    ensures op == Addition ==> result == Success(Sum(numbers))
    ensures op == Multiplication ==> result == Success(Product(numbers))
    ensures op == Subtraction ==> (result.Failure? <==> numbers == [])
    ensures op == Subtraction && numbers != [] ==> result == Success(numbers[0] - Sum(numbers[1..]))
    ensures op == Division ==>
      (result.Success? <==> |numbers| >= 2 && numbers[1] != 0 && JsRem(numbers[0], numbers[1]) == 0)
    ensures op == Division && result.Success? ==> numbers[0] == result.value * numbers[1]
  {
    if op == Addition {
      AddFromIsSum(0, numbers);
      result := Success(AddFrom(0, numbers));
    } else if op == Subtraction {
      if numbers == [] {
        return Failure(EmptyReduce);
      }
      SubtractFromIsDifference(numbers[0], numbers[1..]);
      result := Success(SubtractFrom(numbers[0], numbers[1..]));
    } else if op == Multiplication {
      MultiplyFromIsProduct(1, numbers);
      result := Success(MultiplyFrom(1, numbers));
    } else {
      if |numbers| < 2 || numbers[1] == 0 || JsRem(numbers[0], numbers[1]) != 0 {
        return Failure(NotAnInteger);
      }
      result := Success(TruncQuotient(numbers[0], numbers[1]));
    }
  }

  // ---------------------------------------------------------------------------
  // what the operation stage guarantees

  /** The fixed-up divisor is non-zero and divides the fixed-up dividend exactly. */
  lemma FixUpExact(sorted: seq<int>)
    requires |sorted| >= 2
    ensures var fixed := DivisionFixUp(sorted);
      && fixed[1] != 0
      && JsRem(fixed[0], fixed[1]) == 0
      && fixed[0] == TruncQuotient(fixed[0], fixed[1]) * fixed[1]
  {
    var fixed := DivisionFixUp(sorted);
    var divisor := fixed[1];
    var reduced := sorted[0] - JsRem(sorted[0], divisor);
    if reduced == 0 {
      MultipleRemainder(2, divisor);
      assert fixed[0] == 2 * divisor;
    } else {
      MultipleRemainder(TruncQuotient(sorted[0], divisor), divisor);
    }
  }

  /**
   * `m` is `a` rounded toward zero to a non-zero multiple of `b`: a multiple of `b` with the sign
   * of `a`, no larger than `a` in magnitude, and less than `|b|` away from it.
   */
  predicate RoundedTowardZero(m: int, a: int, b: int)
    requires b != 0
  {
    && m != 0
    && JsRem(m, b) == 0
    && (m < 0 <==> a < 0)
    && Abs(m) <= Abs(a)
    && Abs(a - m) < Abs(b)
  }

  /** The only multiple of `b` less than `|b|` away from zero is 0. */
  lemma SmallMultiple(e: int, b: int)
    requires b != 0
    requires Abs(e * b) < Abs(b)
    ensures e == 0
  {
    if b > 0 {
      MultipleBounds(e, b);
    } else {
      assert e * b == (-e) * (-b);
      MultipleBounds(-e, -b);
    }
  }

  /** At most one number is `a` rounded toward zero to a non-zero multiple of `b`. */
  lemma RoundedTowardZeroUnique(m1: int, m2: int, a: int, b: int)
    requires b != 0
    requires RoundedTowardZero(m1, a, b) && RoundedTowardZero(m2, a, b)
    ensures m1 == m2
  {
    var e := MultipleDifference(m1, m2, b);
    assert Abs(m1 - m2) < Abs(b) by {
      if a < 0 {
        assert a < m1 + Abs(b) && a < m2 + Abs(b) && m1 < 0 && m2 < 0 && a <= m1 && a <= m2;
      } else {
        assert m1 - Abs(b) < a && m2 - Abs(b) < a && m1 > 0 && m2 > 0 && m1 <= a && m2 <= a;
      }
    }
    SmallMultiple(e, b);
  }

  /** The difference of two multiples of `b` is a multiple of `b`. */
  lemma MultipleDifference(m1: int, m2: int, b: int) returns (e: int)
    requires b != 0
    requires JsRem(m1, b) == 0 && JsRem(m2, b) == 0
    ensures m1 - m2 == e * b
  {
    var q1, q2 := TruncQuotient(m1, b), TruncQuotient(m2, b);
    e := q1 - q2;
    assert e * b == q1 * b - q2 * b;
  }

  /**
   * `a - a % b` in JavaScript: 0 when `a` is smaller than `b` in magnitude, and otherwise `a`
   * rounded toward zero to a multiple of `b`.
   */
  lemma RoundDown(a: int, b: int)
    requires b != 0
    ensures Abs(a) < Abs(b) ==> a - JsRem(a, b) == 0
    ensures Abs(a) >= Abs(b) ==> RoundedTowardZero(a - JsRem(a, b), a, b)
  {
    var r := JsRem(a, b);
    var q := TruncQuotient(a, b);
    assert a - r == q * b;
    if Abs(a) < Abs(b) {
      if a < 0 {
        assert r <= 0 && Abs(a - r) < Abs(b);
      } else {
        assert r >= 0 && Abs(a - r) < Abs(b);
      }
      SmallMultiple(q, b);
    } else {
      MultipleRemainder(q, b);
      if a < 0 {
        assert r <= 0 && a - r < 0;
      } else {
        assert r >= 0 && a - r > 0;
      }
    }
  }

  /**
   * The fixed-up dividend: the largest drawn operand rounded toward zero to a multiple of the
   * divisor, or twice the divisor when that rounding gives 0 (the operand is smaller in
   * magnitude than the divisor).
   */
  lemma FixUpDividend(sorted: seq<int>)
    requires |sorted| >= 2
    ensures var fixed := DivisionFixUp(sorted);
      && fixed[1] != 0
      && (if Abs(sorted[0]) < Abs(fixed[1]) then fixed[0] == 2 * fixed[1]
          else RoundedTowardZero(fixed[0], sorted[0], fixed[1]))
  {
    var d := if sorted[1] == 0 then 1 else sorted[1];
    RoundDown(sorted[0], d);
  }

  /**
   * Division: with at least two operands the question always comes out. The divisor is non-zero
   * and divides the dividend exactly (the answer times the divisor is the dividend); the
   * divisor is the second largest operand (1 if that was 0); the operands from position 2 on are
   * the sorted remaining operands; and from position 1 on they are still descending.
   */
  lemma DivisionSolved(drawn: seq<int>)
    ensures |drawn| < 2 <==> Solve(Division, drawn).Failure?
    ensures |drawn| < 2 ==> Solve(Division, drawn) == Failure(NotAnInteger)
    ensures |drawn| >= 2 ==>
      var sorted := SortDescending(drawn);
      var q := Solve(Division, drawn).value;
      && |q.numbers| == |drawn|
      && q.numbers[1] != 0
      && q.numbers[0] == q.answer * q.numbers[1]
      && q.numbers[1] == (if sorted[1] == 0 then 1 else sorted[1])
      && (if Abs(sorted[0]) < Abs(q.numbers[1]) then q.numbers[0] == 2 * q.numbers[1]
          else RoundedTowardZero(q.numbers[0], sorted[0], q.numbers[1]))
      && q.numbers[2..] == sorted[2..]
      && Descending(q.numbers[1..])
  {
    var sorted := SortDescending(drawn);
    SortedLength(drawn);
    if |drawn| >= 2 {
      var fixed := DivisionFixUp(sorted);
      FixUpExact(sorted);
      FixUpDividend(sorted);
      FixUpShape(sorted);
      assert Solve(Division, drawn) == Success(Solved(fixed, TruncQuotient(fixed[0], fixed[1])));
    }
  }

  /** The fix-up rewrites only the first two operands of a descending list, keeping the rest descending. */
  lemma FixUpShape(sorted: seq<int>)
    requires |sorted| >= 2 && Descending(sorted)
    ensures var fixed := DivisionFixUp(sorted);
      && fixed[1] == (if sorted[1] == 0 then 1 else sorted[1])
      && fixed[2..] == sorted[2..]
      && Descending(fixed[1..])
  {
    var fixed := DivisionFixUp(sorted);
    assert fixed[2..] == sorted[2..];
    forall i, j | 0 <= i < j < |fixed| - 1 ensures fixed[1..][i] >= fixed[1..][j] {
      assert sorted[i + 1] >= sorted[j + 1];
    }
  }

  /** Drawn operands 7 and 86 become 84 ÷ 7 = 12: the dividend is rounded down to a multiple. */
  lemma DivisionRoundsDividend()
    ensures Solve(Division, [7, 86]) == Success(Solved([84, 7], 12))
  {
    SortTwo(7, 86);
    assert Abs(86) % Abs(7) == 2 && JsRem(86, 7) == 2;
    assert DivisionFixUp([86, 7]) == [84, 7];
    assert Abs(84) % Abs(7) == 0 && Abs(84) / Abs(7) == 12;
    assert AnswerOf(Division, [84, 7]) == Success(12);
  }

  /** Sorting two operands puts the larger first. */
  lemma SortTwo(x: int, y: int)
    ensures SortDescending([x, y]) == if x >= y then [x, y] else [y, x]
  {
    assert [x, y][1..] == [y] && [y][1..] == [];
    assert SortDescending([y]) == [y];
  }

  /** A multiple of `b` leaves no remainder. */
  lemma MultipleRemainder(q: int, b: int)
    requires b != 0
    ensures JsRem(q * b, b) == 0
  {
    var a := q * b;
    assert Abs(a) == Abs(q) * Abs(b);
    ModOfMultiple(Abs(q), Abs(b));
  }

  lemma ModOfMultiple(q: nat, b: nat)
    requires b > 0
    ensures (q * b) % b == 0
  {
    var r := (q * b) % b;
    var d := (q * b) / b;
    assert q * b == d * b + r;
    assert (q - d) * b == r;
    MultipleBounds(q - d, b);
  }

  /** A non-zero multiple of a positive `b` is at least `b` away from zero. */
  lemma MultipleBounds(e: int, b: int)
    requires b > 0
    ensures e >= 1 ==> e * b >= b
    ensures e <= -1 ==> e * b <= -b
    ensures e == 0 ==> e * b == 0
  {
  }

  /**
   * Division on non-negative operands: the dividend is positive and at least the divisor, so the
   * answer is a positive integer.
   */
  lemma DivisionNonNegative(drawn: seq<int>)
    requires |drawn| >= 2
    requires forall k :: 0 <= k < |drawn| ==> drawn[k] >= 0
    ensures Solve(Division, drawn).Success?
    ensures var q := Solve(Division, drawn).value;
      q.numbers[0] > 0 && q.numbers[0] >= q.numbers[1] > 0 && q.answer >= 1
    ensures var q := Solve(Division, drawn).value;
      var sorted := SortDescending(drawn);
      && |sorted| == |drawn|
      && (sorted[0] >= 1 ==> sorted[0] - q.numbers[1] < q.numbers[0] <= sorted[0])
      && (sorted[0] == 0 ==> q.numbers[0] == 2 && q.numbers[1] == 1)
  {
    var sorted := SortDescending(drawn);
    SortedLength(drawn);
    assert sorted[0] in multiset(drawn);
    assert sorted[1] in multiset(drawn);
    FixUpNonNegative(sorted[0], sorted[1]);
    var fixed := DivisionFixUp(sorted);
    FixUpExact(sorted);
    FixUpDividend(sorted);
    var answer := TruncQuotient(fixed[0], fixed[1]);
    assert Solve(Division, drawn) == Success(Solved(fixed, answer));
    MultipleBounds(answer, fixed[1]);
  }

  /** The fix-up of two sorted non-negative operands leaves a positive dividend at least the divisor. */
  lemma FixUpNonNegative(a: int, b: int)
    requires a >= b >= 0
    ensures var divisor := if b == 0 then 1 else b;
      var reduced := a - JsRem(a, divisor);
      var dividend := if reduced == 0 then divisor * 2 else reduced;
      dividend >= divisor > 0
  {
    var divisor := if b == 0 then 1 else b;
    var t := TruncQuotient(a, divisor);
    assert a - JsRem(a, divisor) == t * divisor;
    assert t == a / divisor;
    assert t >= 1 ==> t * divisor >= divisor by { MultipleBounds(t, divisor); }
  }

  /**
   * Subtraction: with at least one operand the operands come out descending and a permutation of
   * the drawn ones, and the answer is the first minus the sum of the others; with two operands
   * it is never negative. An empty list stops with the `reduce` TypeError.
   */
  lemma SubtractionSolved(drawn: seq<int>)
    ensures drawn == [] <==> Solve(Subtraction, drawn) == Failure(EmptyReduce)
    ensures drawn != [] ==>
      var q := Solve(Subtraction, drawn).value;
      && Descending(q.numbers)
      && multiset(q.numbers) == multiset(drawn)
      && q.answer == q.numbers[0] - Sum(q.numbers[1..])
    ensures |drawn| == 2 ==> Solve(Subtraction, drawn).value.answer >= 0
  {
    if drawn != [] {
      var sorted := SortDescending(drawn);
      SortedLength(drawn);
      SubtractFromIsDifference(sorted[0], sorted[1..]);
      if |drawn| == 2 {
        assert sorted[1..][1..] == [];
      }
    } else {
      assert SortDescending(drawn) == [];
    }
  }

  /** With three operands subtraction can go negative: 5 - 4 - 3 = -2. */
  lemma SubtractionOfThreeCanBeNegative()
    ensures Solve(Subtraction, [5, 4, 3]) == Success(Solved([5, 4, 3], -2))
  {
    var s := [5, 4, 3];
    DescendingPermutationUnique(SortDescending(s), s);
    assert s[1..] == [4, 3];
    assert s[1..][1..] == [3];
  }

  /** Addition keeps the operands in place and answers their sum. */
  lemma AdditionSolved(drawn: seq<int>)
    ensures Solve(Addition, drawn) == Success(Solved(drawn, Sum(drawn)))
  {
    AddFromIsSum(0, drawn);
  }

  /** Multiplication keeps the operands in place and answers their product. */
  lemma MultiplicationSolved(drawn: seq<int>)
    ensures Solve(Multiplication, drawn) == Success(Solved(drawn, Product(drawn)))
  {
    MultiplyFromIsProduct(1, drawn);
  }
}
