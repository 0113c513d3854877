/**
 * The digit-count specification ("3x2x1"), the optional list of per-term limits, the check
 * `validateInputs` runs before generating, and the placeholder shown in the limit field.
 */
module TermSpec {
  import opened Wrappers
  import opened JsBuiltins

  /** `numeralsInput.toLowerCase().split("x").map(item => parseInt(item.trim(), 10))` */
  function DigitCounts(numerals: string): (counts: seq<Option<int>>)
    ensures |counts| == |Split(numerals)| >= 1
  {
    ParseTokens(Split(numerals))
  }

  function ParseTokens(tokens: seq<string>): (values: seq<Option<int>>)
    ensures |values| == |tokens|
    ensures forall k :: 0 <= k < |tokens| ==> values[k] == ParseInt(tokens[k])
  {
    seq(|tokens|, k requires 0 <= k < |tokens| => ParseInt(tokens[k]))
  }

  predicate HasNonWhitespace(s: string) { exists i :: 0 <= i < |s| && !IsWhitespace(s[i]) }

  /**
   * The limit list: empty unless the limit box is enabled and its text is not blank after
   * trimming; otherwise the text split and parsed like the digit counts (NaN entries stay NaN).
   */
  function UserLimits(enabled: bool, text: string): (limits: seq<Option<int>>)
    ensures limits != [] <==> enabled && HasNonWhitespace(text)
    ensures limits != [] ==> limits == ParseTokens(Split(text))
  {
    if enabled && text != "" && HasNonWhitespace(text) then ParseTokens(Split(text)) else []
  }

  /**
   * The entry of a list of length `len` that term `j` uses: its own, or the last one once `j`
   * runs past the end. An entry is never used for an earlier term than its own.
   */
  function Recycle(len: nat, j: nat): (k: nat)
    requires len > 0
    ensures k < len && k <= j
    ensures j < len ==> k == j
    ensures j >= len ==> k == len - 1
  {
    if j < len then j else len - 1
  }

  /** The digit count of term `j` (`numNumerals[digitIndex]`). */
  function DigitCountAt(counts: seq<Option<int>>, j: nat): Option<int>
    requires |counts| > 0
  {
    counts[Recycle(|counts|, j)]
  }

  /** The limit of term `j`, or `None` (null) when there is no limit list or the entry is NaN. */
  function LimitAt(limits: seq<Option<int>>, j: nat): (limit: Option<int>)
    ensures limits == [] ==> limit == None
  {
    if |limits| > 0 then limits[Recycle(|limits|, j)] else None
  }

  /** Once past the end of a list, every later term uses the same (last) entry. */
  lemma RecycleStable(len: nat, j: nat, j': nat)
    requires len > 0 && len - 1 <= j <= j'
    ensures Recycle(len, j) == Recycle(len, j') == len - 1
  {
  }

  // ---------------------------------------------------------------------------
  // validateInputs

  /** `/^[\dx]+$/i`: non-empty, digits and "x" or "X" only. */
  predicate WellFormedSpec(s: string) {
    |s| > 0 && forall i :: 0 <= i < |s| ==> IsDigit(s[i]) || IsSeparator(s[i])
  }

  /** `.filter(p => p !== "")` */
  function NonEmpty(parts: seq<string>): (kept: seq<string>)
    ensures |kept| <= |parts|
    ensures forall t :: t in kept <==> t in parts && t != ""
  {
    if parts == [] then []
    else if parts[0] == "" then NonEmpty(parts[1..])
    else [parts[0]] + NonEmpty(parts[1..])
  }

  function EmptyCount(parts: seq<string>): nat {
    if parts == [] then 0 else (if parts[0] == "" then 1 else 0) + EmptyCount(parts[1..])
  }

  /** The filter works token by token: filtering a concatenation concatenates the filtered parts, in order. */
  lemma {:induction false} NonEmptyAppend(a: seq<string>, b: seq<string>)
    ensures NonEmpty(a + b) == NonEmpty(a) + NonEmpty(b)
  {
    if a != [] {
      assert (a + b)[0] == a[0];
      assert (a + b)[1..] == a[1..] + b;
      NonEmptyAppend(a[1..], b);
    } else {
      assert a + b == b;
    }
  }

  /** The filter drops exactly the empty tokens: the term count is the token count minus the empty ones. */
  lemma {:induction false} NonEmptyCount(parts: seq<string>)
    ensures |NonEmpty(parts)| == |parts| - EmptyCount(parts)
  {
    if parts != [] {
      NonEmptyCount(parts[1..]);
    }
  }

  /** The number of terms the validator sees in a digit specification. */
  function TermCount(numerals: string): nat {
    |NonEmpty(Split(numerals))|
  }

  /**
   * `validateInputs`: the specification must pass the character check, and a term count other
   * than one (a broadcast) must equal the number of values; NaN equals nothing.
   */
  function ValidateInputs(numerals: string, numValues: Option<int>): (ok: bool)
    ensures !ok <==>
      !WellFormedSpec(numerals)
      || (TermCount(numerals) > 1 && numValues != Some(TermCount(numerals)))
  {
    if !WellFormedSpec(numerals) then false
    else
      var count := TermCount(numerals);
      if Some(count) != numValues && count != 1 then
        if count > 1 && Some(count) != numValues then false else true
      else true
  }

  /** On an accepted specification each digit count is NaN exactly for an empty token and never negative. */
  lemma ValidatedDigitCounts(numerals: string, numValues: Option<int>, k: nat)
    requires ValidateInputs(numerals, numValues)
    requires k < |DigitCounts(numerals)|
    ensures DigitCounts(numerals)[k].None? <==> Split(numerals)[k] == ""
    ensures DigitCounts(numerals)[k].Some? ==> DigitCounts(numerals)[k].value >= 0
  {
    var token := Split(numerals)[k];
    SplitPartsDigits(numerals);
    ParseDigitToken(token);
  }

  /** Every token of a well-formed specification is a (possibly empty) digit string. */
  lemma {:induction false} SplitPartsDigits(s: string)
    requires forall i :: 0 <= i < |s| ==> IsDigit(s[i]) || IsSeparator(s[i])
    ensures forall k :: 0 <= k < |Split(s)| ==> AllDigits(Split(s)[k])
  {
    if s != [] {
      SplitPartsDigits(s[1..]);
      var rest := Split(s[1..]);
      if !IsSeparator(s[0]) {
        var head := [s[0]] + rest[0];
        assert AllDigits(rest[0]);
        assert AllDigits(head) by {
          forall i | 0 <= i < |head| ensures IsDigit(head[i]) {
            if i > 0 { assert head[i] == rest[0][i - 1]; }
          }
        }
      }
    }
  }

  /**
   * The validator drops empty tokens but the generator does not: "3x" is accepted for two
   * values, yet the generator's second digit count is NaN.
   */
  lemma TrailingSeparatorAccepted()
    ensures ValidateInputs("3x", Some(2))
    ensures DigitCounts("3x") == [Some(3), None]
  {
    assert Split("3x") == ["3", ""] by {
      assert "3x"[1..] == "x";
      assert "x"[1..] == "";
      assert Split("") == [""];
      assert Split("x") == ["", ""];
      assert ['3'] + "" == "3";
    }
    assert NonEmpty(["3", ""]) == ["3"] by {
      assert ["3", ""][1..] == [""];
    }
    ParseDigitToken("3");
    ParseDigitToken("");
    assert DigitsValue("3") == 3 by {
      assert "3"[..0] == "";
    }
  }

  // ---------------------------------------------------------------------------
  // updateMaxLimitPlaceholder

  /**
   * The placeholder entry for one digit count: 9 for NaN, otherwise 10^d - 1. For a negative
   * count 10^d - 1 is a fraction, which is not modelled (`None`).
   */
  function PlaceholderEntry(d: Option<int>): (entry: Option<int>)
    ensures d.None? ==> entry == Some(9)
    ensures d.Some? ==> (entry.Some? <==> d.value >= 0)
    ensures d.Some? && d.value >= 1 ==> entry.Some? && |IntToString(entry.value)| == d.value
  {
    match d
    case None => Some(9)
    case Some(k) =>
      if k >= 0 then
        NinesWidth(k);
        Some(Pow10(k) - 1)
      else None
  }

  /** 10^k - 1 is written with k digits. */
  lemma NinesWidth(k: nat)
    ensures k >= 1 ==> |IntToString(Pow10(k) - 1)| == k
  {
    if k >= 1 {
      assert Pow10(k) == 10 * Pow10(k - 1);
      WidthIffRange(Pow10(k) - 1, k);
    }
  }

  /** `maxArray`: one placeholder entry per token of the digit specification. */
  function PlaceholderMaxima(numerals: string): (maxima: seq<Option<int>>)
    ensures |maxima| == |Split(numerals)|
  {
    var counts := DigitCounts(numerals);
    seq(|counts|, k requires 0 <= k < |counts| => PlaceholderEntry(counts[k]))
  }

  predicate AllIntegral(xs: seq<Option<int>>) { forall k :: 0 <= k < |xs| ==> xs[k].Some? }

  /** `maxArray.join("x")`, when every entry is an integer. */
  function Placeholder(numerals: string): (text: Option<string>)
    ensures text.Some? <==> AllIntegral(PlaceholderMaxima(numerals))
  {
    var maxima := PlaceholderMaxima(numerals);
    if AllIntegral(maxima) then
      Some(Join(seq(|maxima|, k requires 0 <= k < |maxima| && maxima[k].Some? => IntToString(maxima[k].value))))
    else None
  }

  /** Typing the placeholder into the limit box gives back exactly the natural maxima, term by term. */
  lemma PlaceholderReadsBack(numerals: string)
    requires Placeholder(numerals).Some?
    ensures ParseTokens(Split(Placeholder(numerals).value)) == PlaceholderMaxima(numerals)
  {
    var maxima := PlaceholderMaxima(numerals);
    var texts := seq(|maxima|, k requires 0 <= k < |maxima| && maxima[k].Some? => IntToString(maxima[k].value));
    forall k | 0 <= k < |texts| ensures SeparatorFree(texts[k]) {
      IntToStringSeparatorFree(maxima[k].value);
    }
    SplitJoin(texts);
    forall k | 0 <= k < |texts| ensures ParseInt(texts[k]) == maxima[k] {
      ParseIntToString(maxima[k].value, "", "");
      assert "" + texts[k] + "" == texts[k];
    }
  }
}
