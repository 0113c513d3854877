/**
 * `formatTraditional`: the column layout of a question, right-aligned by padding each number on
 * the left with `\phantom{0}` up to the width of the longest one, the rows stacked in an
 * `array{r}` and the last row underlined together with the operator.
 */
module Layout {
  import opened JsBuiltins
  import opened Operations

  /** One invisible digit. */
  const Phantom: string := "\\phantom{0}"

  /** What ends every row but the last: a LaTeX line break. */
  const RowBreak: string := " \\\\ "

  const Open: string := "\\[ \\begin{array}{r} "
  const Close: string := " \\end{array} \\]"

  function Repeat(s: string, k: nat): (r: string)
    ensures |r| == k * |s|
  {
    if k == 0 then "" else s + Repeat(s, k - 1)
  }

  /** `str` preceded by one phantom per missing digit (none when `str` is already wide enough). */
  function PaddedRow(str: string, width: int): string {
    Repeat(Phantom, if width > |str| then width - |str| else 0) + str
  }

  /** The last row: operator, a quad of space, and the number, underlined. */
  function Underline(op: string, row: string): string {
    "\\underline{" + op + " \\quad " + row + "}"
  }

  /** Rows each followed by a line break, in order. */
  function Stacked(rows: seq<string>): string {
    if rows == [] then "" else Stacked(rows[..|rows| - 1]) + rows[|rows| - 1] + RowBreak
  }

  /** The body of the array: all rows but the last stacked, then the underlined last row. */
  function Content(rows: seq<string>, op: string): string {
    if rows == [] then "" else Stacked(rows[..|rows| - 1]) + Underline(op, rows[|rows| - 1])
  }

  /** `Math.max(...lengths)` over a non-empty list: at least every length. */
  function MaxLength(strs: seq<string>): (m: nat)
    requires |strs| > 0
    ensures forall k :: 0 <= k < |strs| ==> |strs[k]| <= m
  {
    if |strs| == 1 then |strs[0]|
    else
      var rest := MaxLength(strs[1..]);
      assert forall k :: 1 <= k < |strs| ==> strs[k] == strs[1..][k - 1];
      if |strs[0]| >= rest then |strs[0]| else rest
  }

  /** The longest length is the length of one of the strings, so the widest row gets no padding. */
  lemma {:induction false} MaxLengthAttained(strs: seq<string>) returns (k: nat)
    requires |strs| > 0
    ensures k < |strs| && |strs[k]| == MaxLength(strs)
  {
    if |strs| == 1 {
      k := 0;
    } else {
      var j := MaxLengthAttained(strs[1..]);
      if |strs[0]| >= MaxLength(strs[1..]) {
        k := 0;
      } else {
        k := j + 1;
      }
    }
  }

  function Strings(numbers: seq<int>): (strs: seq<string>)
    ensures |strs| == |numbers|
  {
    seq(|numbers|, k requires 0 <= k < |numbers| => IntToString(numbers[k]))
  }

  /** Each text padded to the width of the longest, in order. */
  function PaddedRows(strs: seq<string>): (rows: seq<string>)
    ensures |rows| == |strs|
  {
    if strs == [] then []
    else
      var width := MaxLength(strs);
      seq(|strs|, k requires 0 <= k < |strs| => PaddedRow(strs[k], width))
  }

  /** The padded rows, one per number, in input order. */
  function Rows(numbers: seq<int>): (rows: seq<string>)
    ensures |rows| == |numbers|
  {
    PaddedRows(Strings(numbers))
  }

  /** The whole LaTeX string of a question in traditional layout. */
  function TraditionalLatex(numbers: seq<int>, op: string): string {
    Open + Content(Rows(numbers), op) + Close
  }

  /** The padding loop: `diff` phantoms, then the number. */
  method PadNumber(str: string, diff: int) returns (padded: string)
    ensures padded == Repeat(Phantom, if diff > 0 then diff else 0) + str
  {
    var padding := "";
    var k := 0;
    while k < diff
      invariant 0 <= k && (diff > 0 ==> k <= diff) && (diff <= 0 ==> k == 0)
      invariant padding == Repeat(Phantom, k)
    {
      padding := padding + Phantom;
      RepeatAppend(Phantom, k);
      k := k + 1;
    }
    padded := padding + str;
  }

  lemma {:induction false} RepeatAppend(s: string, k: nat)
    ensures Repeat(s, k) + s == Repeat(s, k + 1)
  {
    if k > 0 {
      RepeatAppend(s, k - 1);
    }
  }

  /** `formatTraditional(numbers, opSymbol)`: pad every number, lay out the rows, wrap them. */
  method FormatTraditional(numbers: seq<int>, opSymbol: string) returns (latex: string)
    ensures latex == TraditionalLatex(numbers, opSymbol)
  {
    var padded := PadAll(Strings(numbers));
    var content := LayOutRows(padded, opSymbol);
    latex := Open + content + Close;
  }

  /** The `numbers.map` step, on the numbers' texts: each padded to the width of the longest. */
  method PadAll(strs: seq<string>) returns (padded: seq<string>)
    ensures padded == PaddedRows(strs)
  {
    padded := [];
    if |strs| > 0 {
      var maxLength := MaxLength(strs);
      for i := 0 to |strs|
        invariant |padded| == i
        invariant forall k :: 0 <= k < i ==> padded[k] == PaddedRow(strs[k], maxLength)
      {
        var str := strs[i];
        var diff := maxLength - |str|;
        var row := PadNumber(str, diff);
        padded := padded + [row];
      }
    }
  }

  /** The content loop: every row but the last followed by a line break, the last underlined. */
  method LayOutRows(padded: seq<string>, opSymbol: string) returns (content: string)
    ensures content == Content(padded, opSymbol)
  {
    content := "";
    for i := 0 to |padded|
      invariant content == if i == |padded| && i > 0 then Content(padded, opSymbol) else Stacked(padded[..i])
    {
      if i == |padded| - 1 {
        content := content + Underline(opSymbol, padded[i]);
      } else {
        assert padded[..i + 1][..i] == padded[..i];
        content := content + padded[i] + RowBreak;
      }
    }
  }

  // ---------------------------------------------------------------------------
  // reading a layout back

  /** The number of leading phantoms of a row, and what follows them. */
  function StripPhantoms(row: string): (nat, string) {
    if |row| >= |Phantom| && row[..|Phantom|] == Phantom then
      var (k, rest) := StripPhantoms(row[|Phantom|..]);
      (k + 1, rest)
    else (0, row)
  }

  /** A row reads back as its phantom count and the original string, when that does not start with a backslash. */
  lemma {:induction false} StripPadding(str: string, k: nat)
    requires str == [] || str[0] != '\\'
    ensures StripPhantoms(Repeat(Phantom, k) + str) == (k, str)
  {
    var row := Repeat(Phantom, k) + str;
    if k == 0 {
      assert row == str;
      if |row| >= |Phantom| {
        assert row[..|Phantom|][0] != Phantom[0];
      }
    } else {
      assert row == Phantom + (Repeat(Phantom, k - 1) + str);
      assert row[..|Phantom|] == Phantom;
      assert row[|Phantom|..] == Repeat(Phantom, k - 1) + str;
      StripPadding(str, k - 1);
    }
  }

  lemma IntToStringStart(n: int)
    ensures IntToString(n)[0] != '\\'
  {
    var m: nat := if n < 0 then -n else n;
    assert IsDigit(Digits(m)[0]);
  }

  /**
   * Every row is the number's text after exactly `maxLength - length` phantoms, so every row
   * is as wide as the widest number; the rows follow the input order.
   */
  lemma RowsAligned(numbers: seq<int>, k: nat)
    requires k < |numbers|
    ensures var strs := Strings(numbers);
      var width := MaxLength(strs);
      && |strs[k]| <= width
      && StripPhantoms(Rows(numbers)[k]) == (width - |strs[k]|, IntToString(numbers[k]))
  {
    var strs := Strings(numbers);
    var width := MaxLength(strs);
    IntToStringStart(numbers[k]);
    StripPadding(strs[k], width - |strs[k]|);
  }

  /** Stacking two blocks of rows stacks them one after the other. */
  lemma {:induction false} StackedAppend(a: seq<string>, b: seq<string>)
    ensures Stacked(a + b) == Stacked(a) + Stacked(b)
    decreases |b|
  {
    if b == [] {
      assert a + b == a;
    } else {
      var b' := b[..|b| - 1];
      assert (a + b)[..|a + b| - 1] == a + b';
      StackedAppend(a, b');
    }
  }

  /**
   * Row `k` of the content, for any row but the last, sits right after the rows before it and
   * is followed by a line break; the last row appears only inside the underline.
   */
  lemma RowPosition(rows: seq<string>, op: string, k: nat)
    requires k < |rows|
    ensures k < |rows| - 1 ==> (Content(rows, op) ==
      Stacked(rows[..k]) + rows[k] + RowBreak + Stacked(rows[k + 1..|rows| - 1]) + Underline(op, rows[|rows| - 1]))
    ensures k == |rows| - 1 ==> Content(rows, op) == Stacked(rows[..k]) + Underline(op, rows[k])
  {
    if k < |rows| - 1 {
      var init := rows[..|rows| - 1];
      assert init == rows[..k] + [rows[k]] + rows[k + 1..|rows| - 1];
      StackedAppend(rows[..k] + [rows[k]], rows[k + 1..|rows| - 1]);
      StackedAppend(rows[..k], [rows[k]]);
      assert Stacked([rows[k]]) == rows[k] + RowBreak by {
        assert [rows[k]][..0] == [];
      }
    }
  }

  // ---------------------------------------------------------------------------
  // the LaTeX of a question

  /** The orientation field: "traditional" (stacked) or anything else (one line). */
  datatype Orientation = Traditional | Horizontal

  /** `numbers[k]` in a template literal: the number, or "undefined" past the end. */
  function Operand(numbers: seq<int>, k: nat): string {
    if k < |numbers| then IntToString(numbers[k]) else "undefined"
  }

  /**
   * The one-line layout lists the operands in order: cut before any operand but the first, it
   * is the join of those before, the separator, and the join of the rest.
   */
  lemma {:induction false} JoinWithSplits(parts: seq<string>, sep: string, k: nat)
    requires 1 <= k < |parts|
    ensures JoinWith(parts, sep) == JoinWith(parts[..k], sep) + sep + JoinWith(parts[k..], sep)
    decreases k
  {
    if k == 1 {
      assert parts[..1] == [parts[0]];
      assert parts[1..] == parts[k..];
    } else {
      var tail := parts[1..];
      JoinWithSplits(tail, sep, k - 1);
      assert tail[..k - 1] == parts[..k][1..];
      assert tail[k - 1..] == parts[k..];
    }
  }


  /** The operator written in the stacked layout. */
  function Symbol(op: Operation): string {
    match op
    case Addition => "+"
    case Subtraction => "-"
    case Multiplication => "\\times"
    case Division => "\\div"
  }

  /**
   * The question text: the stacked layout or the one-line sum, difference or product; for
   * division the long-division bracket (divisor outside, dividend inside) or `a \div b =`.
   */
  function QuestionLatex(orientation: Orientation, op: Operation, longDivision: bool, numbers: seq<int>): string {
    match op
    case Division =>
      if longDivision then "\\[ " + Operand(numbers, 1) + " \\enclose{longdiv}{" + Operand(numbers, 0) + "} \\]"
      else "\\(" + Operand(numbers, 0) + " \\div " + Operand(numbers, 1) + " = \\)"
    case _ =>
      if orientation == Traditional then TraditionalLatex(numbers, Symbol(op))
      else "\\(" + JoinWith(Strings(numbers), " " + Symbol(op) + " ") + "\\)"
  }

  /** The `switch (operation)` that builds the question text, calling `formatTraditional` when stacked. */
  method FormatQuestion(orientation: Orientation, op: Operation, longDivision: bool, numbers: seq<int>)
    returns (latex: string)
    ensures latex == QuestionLatex(orientation, op, longDivision, numbers)
  {
    if op == Division {
      if longDivision {
        latex := "\\[ " + Operand(numbers, 1) + " \\enclose{longdiv}{" + Operand(numbers, 0) + "} \\]";
      } else {
        latex := "\\(" + Operand(numbers, 0) + " \\div " + Operand(numbers, 1) + " = \\)";
      }
    } else if orientation == Traditional {
      latex := FormatTraditional(numbers, Symbol(op));
    } else {
      latex := "\\(" + JoinWith(Strings(numbers), " " + Symbol(op) + " ") + "\\)";
    }
  }
}
