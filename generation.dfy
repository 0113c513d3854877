/**
 * The integer pipeline of `generateArithmeticTable`: validation, parsing of the digit
 * specification and of the limits, then for each question the inner loop that draws one operand
 * per term, the operation stage and the answer. `Math.random()` results are passed in.
 */
module Generation {
  import opened Wrappers
  import opened TermSpec
  import opened Bounds
  import opened Operations
  import opened JsBuiltins
  import Layout

  /** The form fields the generator reads, with the decimal option off. */
  datatype Config = Config(
    operation: Operation,
    numValues: Option<int>,     // parseInt of the number-of-values field (None: NaN)
    numerals: string,           // the digit specification, e.g. "3x2x1"
    limitEnabled: bool,         // the "enable max limit" checkbox
    limitText: string,          // the limit field, e.g. "50x9"
    orientation: Layout.Orientation,
    longDivision: bool,         // the long-division checkbox
    numQuestions: Option<int>)  // parseInt of the number-of-questions field

  /** One generated question as stored for the answer key. */
  datatype Question = Question(numbers: seq<int>, latex: string, answer: int, operation: Operation, longDivision: bool)

  /** How often `for (let i = 0; i < n; i++)` runs: never for NaN or n <= 0. */
  function LoopCount(n: Option<int>): (count: nat)
    ensures n.Some? && n.value >= 0 ==> count == n.value
    ensures n.None? || n.value <= 0 ==> count == 0
  {
    if n.Some? && n.value > 0 then n.value else 0
  }

  /** One `Math.random()` result per term of every question. */
  predicate RandomnessFits(cfg: Config, rand: seq<seq<Random>>) {
    && |rand| == LoopCount(cfg.numQuestions)
    && forall i :: 0 <= i < |rand| ==> |rand[i]| == LoopCount(cfg.numValues)
  }

  // ---------------------------------------------------------------------------
  // one question

  /** The operands of one question before the operation stage. */
  function Drawn(counts: seq<Option<int>>, limits: seq<Option<int>>, us: seq<Random>): (drawn: seq<Option<int>>)
    requires |counts| > 0
    ensures |drawn| == |us|
  {
    seq(|us|, j requires 0 <= j < |us| => TermValue(counts, limits, j, us[j]))
  }

  /** All operands as integers, or `None` when one of them is not. */
  function Integers(xs: seq<Option<int>>): (r: Option<seq<int>>)
    ensures r.Some? <==> AllIntegral(xs)
    ensures r.Some? ==> |r.value| == |xs| && forall k :: 0 <= k < |xs| ==> xs[k] == Some(r.value[k])
  {
    if xs == [] then Some([])
    else
      var rest := Integers(xs[1..]);
      if xs[0].Some? && rest.Some? then
        assert forall k :: 1 <= k < |xs| ==> xs[k] == xs[1..][k - 1];
        Some([xs[0].value] + rest.value)
      else
        assert !AllIntegral(xs) by {
          if xs[0].Some? {
            var k :| 0 <= k < |xs[1..]| && xs[1..][k].None?;
            assert xs[k + 1].None?;
          }
        }
        None
  }

  /** One question: the drawn operands, the operation stage and the answer. */
  function QuestionOf(cfg: Config, counts: seq<Option<int>>, limits: seq<Option<int>>, us: seq<Random>): Result<Question, GenError>
    requires |counts| > 0
  {
    match Integers(Drawn(counts, limits, us))
    case None => Failure(NotAnInteger)
    case Some(drawn) =>
      match Solve(cfg.operation, drawn)
      case Failure(e) => Failure(e)
      case Success(s) =>
        var latex := Layout.QuestionLatex(cfg.orientation, cfg.operation, cfg.longDivision, s.numbers);
        Success(Question(s.numbers, latex, s.answer, cfg.operation, cfg.longDivision))
  }

  /**
   * The inner loop: for each term, steps A to F (digit count, limit, bounds, draw, clamp), and
   * the operand pushed onto `numbers`.
   */
  method DrawNumbers(counts: seq<Option<int>>, limits: seq<Option<int>>, us: seq<Random>)
    returns (numbers: seq<Option<int>>)
    requires |counts| > 0
    ensures |numbers| == |us|
    ensures forall j :: 0 <= j < |us| ==> numbers[j] == TermValue(counts, limits, j, us[j])
  {
    numbers := [];
    for j := 0 to |us|
      invariant |numbers| == j
      invariant forall k :: 0 <= k < j ==> numbers[k] == TermValue(counts, limits, k, us[k])
    {
      var number := DrawTerm(counts, limits, j, us[j]);
      numbers := numbers + [number];
    }
  }

  /** Steps A to F for term `j`: digit count, limit, bounds, draw and clamp. */
  method DrawTerm(counts: seq<Option<int>>, limits: seq<Option<int>>, j: nat, u: Random)
    returns (number: Option<int>)
    requires |counts| > 0
    ensures number == TermValue(counts, limits, j, u)
  {
    var digitCount := counts[Recycle(|counts|, j)];
    var currentLimit: Option<int> := None;
    if |limits| > 0 {
      currentLimit := limits[Recycle(|limits|, j)];
    }
    match Resolve(digitCount, currentLimit) {
      case NonInteger =>
        number := None;
      case Integral(r) =>
        var n := Offset(u, r.max - r.min + 1) + r.min;
        if currentLimit.Some? && n > currentLimit.value {
          n := currentLimit.value;
        }
        number := Some(n);
    }
  }

  // ---------------------------------------------------------------------------
  // the batch

  /** The questions of a batch, in order; the first question that cannot be completed stops it. */
  function QuestionsOf(cfg: Config, counts: seq<Option<int>>, limits: seq<Option<int>>, rand: seq<seq<Random>>)
    : Result<seq<Question>, GenError>
    requires |counts| > 0
  {
    if rand == [] then Success([])
    else
      match QuestionsOf(cfg, counts, limits, rand[..|rand| - 1])
      case Failure(e) => Failure(e)
      case Success(qs) =>
        match QuestionOf(cfg, counts, limits, rand[|rand| - 1])
        case Failure(e) => Failure(e)
        case Success(q) => Success(qs + [q])
  }

  /** What `generateArithmeticTable` produces: nothing for rejected input, otherwise the batch. */
  function Batch(cfg: Config, rand: seq<seq<Random>>): Result<seq<Question>, GenError>
  {
    if !ValidateInputs(cfg.numerals, cfg.numValues) then Failure(InvalidInput)
    else QuestionsOf(cfg, DigitCounts(cfg.numerals), UserLimits(cfg.limitEnabled, cfg.limitText), rand)
  }

  /** The generator: validate, parse, then the outer loop over questions. */
  method GenerateArithmeticTable(cfg: Config, rand: seq<seq<Random>>) returns (batch: Result<seq<Question>, GenError>)
    requires RandomnessFits(cfg, rand)
    ensures batch == Batch(cfg, rand)
  {
    if !ValidateInputs(cfg.numerals, cfg.numValues) {
      return Failure(InvalidInput);
    }
    var numNumerals := DigitCounts(cfg.numerals);
    var userLimits := UserLimits(cfg.limitEnabled, cfg.limitText);
    var questions: seq<Question> := [];
    for i := 0 to |rand|
      invariant QuestionsOf(cfg, numNumerals, userLimits, rand[..i]) == Success(questions)
    {
      var question := GenerateQuestion(cfg, numNumerals, userLimits, rand[i]);
      QuestionsOfStep(cfg, numNumerals, userLimits, rand, i, questions);
      if question.Failure? {
        FailureStops(cfg, numNumerals, userLimits, rand, i + 1);
        return Failure(question.error);
      }
      questions := questions + [question.value];
    }
    assert rand[..|rand|] == rand;
    batch := Success(questions);
  }

  /** One more outer iteration: the batch so far grows by the next question, or stops with its error. */
  lemma QuestionsOfStep(cfg: Config, counts: seq<Option<int>>, limits: seq<Option<int>>,
                        rand: seq<seq<Random>>, i: nat, qs: seq<Question>)
    requires |counts| > 0
    requires i < |rand|
    requires QuestionsOf(cfg, counts, limits, rand[..i]) == Success(qs)
    ensures QuestionsOf(cfg, counts, limits, rand[..i + 1]) ==
      match QuestionOf(cfg, counts, limits, rand[i])
      case Failure(e) => Failure(e)
      case Success(q) => Success(qs + [q])
  {
    assert rand[..i + 1][..i] == rand[..i];
  }

  /** The body of the outer loop: draw the operands, apply the operation, lay out the question. */
  method GenerateQuestion(cfg: Config, counts: seq<Option<int>>, limits: seq<Option<int>>, us: seq<Random>)
    returns (question: Result<Question, GenError>)
    requires |counts| > 0
    ensures question == QuestionOf(cfg, counts, limits, us)
  {
    var drawn := DrawNumbers(counts, limits, us);
    assert drawn == Drawn(counts, limits, us);
    var integers := Integers(drawn);
    if integers.None? {
      return Failure(NotAnInteger);
    }
    var solved := ApplyOperation(cfg.operation, integers.value);
    if solved.Failure? {
      return Failure(solved.error);
    }
    var latex := Layout.FormatQuestion(cfg.orientation, cfg.operation, cfg.longDivision, solved.value.numbers);
    question := Success(Question(solved.value.numbers, latex, solved.value.answer, cfg.operation, cfg.longDivision));
  }

  /** Once a prefix of the questions fails, the whole batch fails with the same error. */
  lemma {:induction false} FailureStops(cfg: Config, counts: seq<Option<int>>, limits: seq<Option<int>>,
                                        rand: seq<seq<Random>>, n: nat)
    requires |counts| > 0
    requires n <= |rand|
    requires QuestionsOf(cfg, counts, limits, rand[..n]).Failure?
    ensures QuestionsOf(cfg, counts, limits, rand) == QuestionsOf(cfg, counts, limits, rand[..n])
    decreases |rand| - n
  {
    if n < |rand| {
      assert rand[..n + 1][..n] == rand[..n];
      FailureStops(cfg, counts, limits, rand, n + 1);
    } else {
      assert rand[..n] == rand;
    }
  }

  // ---------------------------------------------------------------------------
  // what a batch guarantees

  /** A successful batch has one question per entry of `rand`, each the question drawn from it. */
  lemma {:induction false} BatchQuestions(cfg: Config, counts: seq<Option<int>>, limits: seq<Option<int>>,
                                          rand: seq<seq<Random>>)
    requires |counts| > 0
    requires QuestionsOf(cfg, counts, limits, rand).Success?
    ensures var qs := QuestionsOf(cfg, counts, limits, rand).value;
      |qs| == |rand| && forall i :: 0 <= i < |rand| ==> QuestionOf(cfg, counts, limits, rand[i]) == Success(qs[i])
  {
    if rand != [] {
      var prefix := rand[..|rand| - 1];
      BatchQuestions(cfg, counts, limits, prefix);
      var qs := QuestionsOf(cfg, counts, limits, rand).value;
      var before := QuestionsOf(cfg, counts, limits, prefix).value;
      assert qs == before + [QuestionOf(cfg, counts, limits, rand[|rand| - 1]).value];
      forall i | 0 <= i < |rand| ensures QuestionOf(cfg, counts, limits, rand[i]) == Success(qs[i]) {
        if i < |rand| - 1 {
          assert rand[i] == prefix[i];
        }
      }
    }
  }

  /** The batch never reports rejected input itself: `InvalidInput` comes from the validator alone. */
  lemma {:induction false} QuestionsNeverInvalid(cfg: Config, counts: seq<Option<int>>, limits: seq<Option<int>>,
                                                 rand: seq<seq<Random>>)
    requires |counts| > 0
    ensures QuestionsOf(cfg, counts, limits, rand) != Failure(InvalidInput)
  {
    if rand != [] {
      QuestionsNeverInvalid(cfg, counts, limits, rand[..|rand| - 1]);
      var us := rand[|rand| - 1];
      var ints := Integers(Drawn(counts, limits, us));
      if ints.Some? {
        var drawn := ints.value;
        match cfg.operation {
          case Division => DivisionSolved(drawn);
          case Subtraction => SubtractionSolved(drawn);
          case Addition => AdditionSolved(drawn);
          case Multiplication => MultiplicationSolved(drawn);
        }
      }
    }
  }

  /** Generation stops with `InvalidInput` exactly when the validator rejects the input. */
  lemma BatchRejectsExactlyInvalid(cfg: Config, rand: seq<seq<Random>>)
    ensures Batch(cfg, rand) == Failure(InvalidInput) <==> !ValidateInputs(cfg.numerals, cfg.numValues)
  {
    QuestionsNeverInvalid(cfg, DigitCounts(cfg.numerals), UserLimits(cfg.limitEnabled, cfg.limitText), rand);
  }

  /**
   * What each question of a batch is, by operation: addition and multiplication keep the drawn
   * operands in order and answer their sum and product; subtraction orders them descending
   * and answers the first minus the rest, never negative for two operands; division has a
   * non-zero divisor, the second largest operand (1 if that was 0), that divides the dividend
   * exactly, and the dividend is the largest operand rounded toward zero to a multiple of it
   * (twice the divisor when that gives 0); the operands from position 2 on are the sorted
   * remaining operands, and from position 1 on they are descending.
   */
  predicate Satisfies(q: Question, drawn: seq<int>) {
    |q.numbers| == |drawn| &&
    match q.operation
    case Addition => q.numbers == drawn && q.answer == Sum(drawn)
    case Multiplication => q.numbers == drawn && q.answer == Product(drawn)
    case Subtraction =>
      && |drawn| > 0
      && Descending(q.numbers)
      && multiset(q.numbers) == multiset(drawn)
      && q.answer == q.numbers[0] - Sum(q.numbers[1..])
      && (|drawn| == 2 ==> q.answer >= 0)
    case Division =>
      && |drawn| >= 2
      && q.numbers[1] != 0
      && q.numbers[0] == q.answer * q.numbers[1]
      && var sorted := SortDescending(drawn);
        && |sorted| == |drawn|
        && q.numbers[1] == (if sorted[1] == 0 then 1 else sorted[1])
        && (if Abs(sorted[0]) < Abs(q.numbers[1]) then q.numbers[0] == 2 * q.numbers[1]
            else RoundedTowardZero(q.numbers[0], sorted[0], q.numbers[1]))
        && q.numbers[2..] == sorted[2..]
        && Descending(q.numbers[1..])
  }

  /** A completed question satisfies its operation's guarantees, over the operands drawn for it. */
  lemma QuestionMeaning(cfg: Config, counts: seq<Option<int>>, limits: seq<Option<int>>, us: seq<Random>)
    requires |counts| > 0
    requires QuestionOf(cfg, counts, limits, us).Success?
    ensures var q := QuestionOf(cfg, counts, limits, us).value;
      var drawn := Integers(Drawn(counts, limits, us)).value;
      && q.operation == cfg.operation
      && q.latex == Layout.QuestionLatex(cfg.orientation, cfg.operation, cfg.longDivision, q.numbers)
      && |drawn| == |us|
      && (forall j :: 0 <= j < |us| ==> TermValue(counts, limits, j, us[j]) == Some(drawn[j]))
      && Satisfies(q, drawn)
  {
    var drawn := Integers(Drawn(counts, limits, us)).value;
    var q := QuestionOf(cfg, counts, limits, us).value;
    SolvedSatisfies(q, drawn);
  }

  /** A question built from a successful operation stage satisfies its operation's guarantees. */
  lemma SolvedSatisfies(q: Question, drawn: seq<int>)
    requires Solve(q.operation, drawn) == Success(Solved(q.numbers, q.answer))
    ensures Satisfies(q, drawn)
  {
    match q.operation {
      case Division => DivisionSolved(drawn);
      case Subtraction => SubtractionSolved(drawn); SortedLength(drawn);
      case Addition => AdditionSolved(drawn);
      case Multiplication => MultiplicationSolved(drawn);
    }
  }

  /** Subtraction with no terms (a NaN or non-positive count) stops at the first question. */
  lemma SubtractionWithoutTermsFails(cfg: Config, rand: seq<seq<Random>>)
    requires RandomnessFits(cfg, rand)
    requires cfg.operation == Subtraction && LoopCount(cfg.numValues) == 0 && |rand| > 0
    requires ValidateInputs(cfg.numerals, cfg.numValues)
    ensures Batch(cfg, rand) == Failure(EmptyReduce)
  {
    var counts := DigitCounts(cfg.numerals);
    var limits := UserLimits(cfg.limitEnabled, cfg.limitText);
    assert rand[..1][0] == rand[0];
    assert rand[..1][..0] == [];
    assert Drawn(counts, limits, rand[0]) == [];
    SubtractionSolved([]);
    assert QuestionOf(cfg, counts, limits, rand[0]) == Failure(EmptyReduce);
    FailureStops(cfg, counts, limits, rand, 1);
  }
}
