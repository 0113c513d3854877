/**
 * The few JavaScript built-ins the generator relies on, restricted to the integer values the
 * model follows: `String.prototype.split` on the term separator, `parseInt(_, 10)`,
 * `Number.prototype.toString` on integers, `Math.pow(10, k)` and the `%` operator.
 */
module JsBuiltins {
  import opened Wrappers

  predicate IsDigit(c: char) { '0' <= c <= '9' }

  predicate AllDigits(s: string) { forall i :: 0 <= i < |s| ==> IsDigit(s[i]) }

  function DigitValue(c: char): (d: nat)
    requires IsDigit(c)
    ensures d < 10
  {
    c as int - '0' as int
  }

  function DigitChar(d: nat): (c: char)
    requires d < 10
    ensures IsDigit(c) && DigitValue(c) == d
  {
    ('0' as int + d) as char
  }

  /** The white space and line terminators that `trim` and `parseInt` skip. */
  predicate IsWhitespace(c: char) {
    c == '\t' || c == '\n' || c == '\U{B}' || c == '\U{C}' || c == '\r' || c == ' '
    || c == '\U{A0}' || c == '\U{1680}' || ('\U{2000}' <= c <= '\U{200A}')
    || c == '\U{2028}' || c == '\U{2029}' || c == '\U{202F}' || c == '\U{205F}'
    || c == '\U{3000}' || c == '\U{FEFF}'
  }

  // ---------------------------------------------------------------------------
  // split on the term separator

  /**
   * The generator lower-cases its input and splits it on "x". Lower-casing changes no character
   * into a digit, a sign, white space or "x" except "X" itself, so splitting on both "x" and "X"
   * yields the same tokens as far as `parseInt` can tell.
   */
  predicate IsSeparator(c: char) { c == 'x' || c == 'X' }

  function SeparatorCount(s: string): nat {
    if s == [] then 0 else (if IsSeparator(s[0]) then 1 else 0) + SeparatorCount(s[1..])
  }

  predicate SeparatorFree(s: string) { forall i :: 0 <= i < |s| ==> !IsSeparator(s[i]) }

  /** `s.toLowerCase().split("x")`: always at least one token, possibly empty ones. */
  function Split(s: string): (parts: seq<string>)
    ensures |parts| >= 1
  {
    if s == [] then [""]
    else
      var rest := Split(s[1..]);
      if IsSeparator(s[0]) then [""] + rest
      else [[s[0]] + rest[0]] + rest[1..]
  }

  /** `parts.join(sep)`: the parts with `sep` between each two neighbours. */
  function JoinWith(parts: seq<string>, sep: string): string {
    if parts == [] then ""
    else if |parts| == 1 then parts[0]
    else parts[0] + sep + JoinWith(parts[1..], sep)
  }

  /** `parts.join("x")` */
  function Join(parts: seq<string>): string {
    JoinWith(parts, "x")
  }

  /** The string the generator actually splits: every "X" lower-cased. */
  function Lowered(s: string): (t: string)
    ensures |t| == |s|
  {
    if s == [] then [] else [if s[0] == 'X' then 'x' else s[0]] + Lowered(s[1..])
  }

  /** There is one token more than there are separators. */
  lemma {:induction false} SplitCount(s: string)
    ensures |Split(s)| == SeparatorCount(s) + 1
  {
    if s != [] {
      SplitCount(s[1..]);
    }
  }

  /** No token contains a separator. */
  lemma {:induction false} SplitPartsSeparatorFree(s: string)
    ensures forall k :: 0 <= k < |Split(s)| ==> SeparatorFree(Split(s)[k])
  {
    if s != [] {
      SplitPartsSeparatorFree(s[1..]);
      var rest := Split(s[1..]);
      if !IsSeparator(s[0]) {
        var head := [s[0]] + rest[0];
        assert SeparatorFree(rest[0]);
        assert SeparatorFree(head) by {
          forall i | 0 <= i < |head| ensures !IsSeparator(head[i]) {
            if i > 0 { assert head[i] == rest[0][i - 1]; }
          }
        }
      }
    }
  }

  /** Joining the tokens again gives back the (lower-cased) input: nothing is lost by splitting. */
  lemma {:induction false} JoinSplit(s: string)
    ensures Join(Split(s)) == Lowered(s)
  {
    if s != [] {
      var rest := Split(s[1..]);
      JoinSplit(s[1..]);
      if IsSeparator(s[0]) {
        assert Split(s) == [""] + rest;
        assert Lowered(s) == "x" + Lowered(s[1..]);
      } else {
        var parts := Split(s);
        assert parts == [[s[0]] + rest[0]] + rest[1..];
        if |rest| == 1 {
          assert Join(parts) == [s[0]] + rest[0];
        } else {
          assert parts[1..] == rest[1..];
          assert Join(rest) == rest[0] + "x" + Join(rest[1..]);
          assert Join(parts) == [s[0]] + rest[0] + "x" + Join(rest[1..]);
        }
      }
    }
  }

  /** Splitting a join of separator-free tokens gives back the tokens. */
  lemma {:induction false} SplitJoin(parts: seq<string>)
    requires |parts| >= 1
    requires forall k :: 0 <= k < |parts| ==> SeparatorFree(parts[k])
    ensures Split(Join(parts)) == parts
  {
    if |parts| == 1 {
      SplitSeparatorFree(parts[0], []);
      assert parts[0] + [] == parts[0];
      assert Split([]) == [""];
      assert Split(parts[0]) == [parts[0]];
      assert parts == [parts[0]];
    } else {
      SplitJoin(parts[1..]);
      var rest := Join(parts[1..]);
      SplitSeparatorFree(parts[0], "x" + rest);
      assert Join(parts) == parts[0] + ("x" + rest);
      SplitAtSeparator(rest);
      assert Split("x" + rest)[0] == "";
      assert Split("x" + rest)[1..] == parts[1..];
      assert parts[0] + "" == parts[0];
      assert [parts[0]] + parts[1..] == parts;
    }
  }

  lemma SplitAtSeparator(s: string)
    ensures Split("x" + s) == [""] + Split(s)
  {
    assert ("x" + s)[1..] == s;
  }

  /** A separator-free prefix is glued to the first token of the rest. */
  lemma {:induction false} SplitSeparatorFree(p: string, s: string)
    requires SeparatorFree(p)
    ensures Split(p + s) == [p + Split(s)[0]] + Split(s)[1..]
  {
    if p == [] {
      assert p + s == s;
      assert p + Split(s)[0] == Split(s)[0];
      assert [Split(s)[0]] + Split(s)[1..] == Split(s);
    } else {
      SplitSeparatorFree(p[1..], s);
      assert (p + s)[1..] == p[1..] + s;
      assert (p + s)[0] == p[0];
      assert [p[0]] + (p[1..] + Split(s)[0]) == p + Split(s)[0];
    }
  }

  // ---------------------------------------------------------------------------
  // parseInt(_, 10)

  function SkipWhitespace(s: string): (t: string)
    ensures |t| <= |s| && t == s[|s| - |t|..]
    ensures t != [] ==> !IsWhitespace(t[0])
  {
    if s != [] && IsWhitespace(s[0]) then SkipWhitespace(s[1..]) else s
  }

  /** The longest prefix made of decimal digits. */
  function DigitPrefix(s: string): (ds: string)
    ensures |ds| <= |s| && ds == s[..|ds|] && AllDigits(ds)
    ensures |ds| < |s| ==> !IsDigit(s[|ds|])
  {
    if s != [] && IsDigit(s[0]) then [s[0]] + DigitPrefix(s[1..]) else []
  }

  /** The value of a digit string read most significant digit first. */
  function DigitsValue(ds: string): nat
    requires AllDigits(ds)
  {
    if ds == [] then 0 else 10 * DigitsValue(ds[..|ds| - 1]) + DigitValue(ds[|ds| - 1])
  }

  /**
   * `parseInt(s, 10)`: skip leading white space, take an optional sign, then the longest run of
   * digits; NaN (`None`) when there is no digit. Trailing characters are ignored.
   */
  function ParseInt(s: string): Option<int> {
    ParseSigned(SkipWhitespace(s))
  }

  /** What `parseInt` does once leading white space is gone: an optional sign, then the digits. */
  function ParseSigned(t: string): Option<int> {
    if t != [] && t[0] == '-' then
      match ParseUnsigned(t[1..])
      case None => None
      case Some(v) => Some(-v)
    else if t != [] && t[0] == '+' then ParseUnsigned(t[1..])
    else ParseUnsigned(t)
  }

  /** The value of the longest digit prefix, or NaN when there is none. */
  function ParseUnsigned(u: string): Option<int> {
    var ds := DigitPrefix(u);
    if ds == [] then None else Some(DigitsValue(ds))
  }

  /** A token made only of digits parses to its value, and to NaN exactly when it is empty. */
  lemma ParseDigitToken(s: string)
    requires AllDigits(s)
    ensures ParseInt(s) == if s == [] then None else Some(DigitsValue(s))
  {
    if s != [] {
      DigitIsNotWhitespace(s[0]);
      assert SkipWhitespace(s) == s;
      assert ParseInt(s) == ParseSigned(s);
      assert s + [] == s;
      DigitPrefixOfDigits(s, []);
    }
  }

  lemma DigitIsNotWhitespace(c: char)
    requires IsDigit(c)
    ensures !IsWhitespace(c) && c != '-' && c != '+'
  {
  }

  lemma {:induction false} DigitPrefixOfDigits(ds: string, rest: string)
    requires AllDigits(ds)
    requires rest == [] || !IsDigit(rest[0])
    ensures DigitPrefix(ds + rest) == ds
  {
    if ds == [] {
      assert ds + rest == rest;
    } else {
      DigitPrefixOfDigits(ds[1..], rest);
      assert (ds + rest)[1..] == ds[1..] + rest;
    }
  }

  // ---------------------------------------------------------------------------
  // Number.prototype.toString on integers

  /** Decimal digits of a natural number, most significant first, without leading zeros. */
  function Digits(n: nat): (s: string)
    ensures |s| >= 1 && AllDigits(s)
  {
    if n < 10 then [DigitChar(n)] else Digits(n / 10) + [DigitChar(n % 10)]
  }

  /** `n.toString()` for an integer `n`. */
  function IntToString(n: int): string {
    if n < 0 then "-" + Digits(-n) else Digits(n)
  }

  lemma {:induction false} DigitsValueOfDigits(n: nat)
    ensures DigitsValue(Digits(n)) == n
  {
    if n >= 10 {
      DigitsValueOfDigits(n / 10);
      var s := Digits(n);
      assert s[..|s| - 1] == Digits(n / 10);
    }
  }

  /** `parseInt` reads back what `toString` wrote, past leading white space and before any non-digit tail. */
  lemma ParseIntToString(n: int, ws: string, tail: string)
    requires forall i :: 0 <= i < |ws| ==> IsWhitespace(ws[i])
    requires tail == [] || !IsDigit(tail[0])
    ensures ParseInt(ws + IntToString(n) + tail) == Some(n)
  {
    var text := IntToString(n);
    var body := text + tail;
    IntToStringHead(n);
    assert body[0] == text[0];
    SkipsWhitespacePrefix(ws, body);
    assert ws + text + tail == ws + body;
    ParseSignedToString(n, tail);
  }

  /** An integer's text starts with a minus sign or a digit, never with white space. */
  lemma IntToStringHead(n: int)
    ensures |IntToString(n)| >= 1 && !IsWhitespace(IntToString(n)[0])
  {
    var m: nat := if n < 0 then -n else n;
    if n >= 0 {
      DigitIsNotWhitespace(Digits(m)[0]);
    }
  }

  lemma ParseSignedToString(n: int, tail: string)
    requires tail == [] || !IsDigit(tail[0])
    ensures ParseSigned(IntToString(n) + tail) == Some(n)
  {
    var m: nat := if n < 0 then -n else n;
    DigitsValueOfDigits(m);
    if n < 0 {
      assert IntToString(n) + tail == "-" + (Digits(m) + tail);
      ParseNegative(Digits(m) + tail);
    }
    ParseDigits(Digits(m), tail);
  }

  /** A non-empty digit run before a non-digit parses to its value. */
  lemma ParseDigits(ds: string, tail: string)
    requires AllDigits(ds) && ds != []
    requires tail == [] || !IsDigit(tail[0])
    ensures ParseUnsigned(ds + tail) == Some(DigitsValue(ds))
    ensures ParseSigned(ds + tail) == Some(DigitsValue(ds))
  {
    var u := ds + tail;
    DigitPrefixOfDigits(ds, tail);
    assert u[0] == ds[0];
    assert IsDigit(u[0]);
  }

  /** A minus sign negates what follows it. */
  lemma ParseNegative(u: string)
    ensures ParseSigned("-" + u) == match ParseUnsigned(u) case None => None case Some(v) => Some(-v)
  {
    var t := "-" + u;
    assert t[0] == '-' && t[1..] == u;
  }

  lemma {:induction false} SkipsWhitespacePrefix(ws: string, s: string)
    requires forall i :: 0 <= i < |ws| ==> IsWhitespace(ws[i])
    requires s == [] || !IsWhitespace(s[0])
    ensures SkipWhitespace(ws + s) == s
  {
    if ws == [] {
      assert ws + s == s;
    } else {
      SkipsWhitespacePrefix(ws[1..], s);
      var t := ws + s;
      assert t[0] == ws[0] && IsWhitespace(t[0]);
      assert t[1..] == ws[1..] + s;
    }
  }

  lemma IntToStringSeparatorFree(n: int)
    ensures SeparatorFree(IntToString(n))
  {
    var m: nat := if n < 0 then -n else n;
    assert AllDigits(Digits(m));
  }

  // ---------------------------------------------------------------------------
  // Math.pow(10, k) and the digit width of a number

  function Pow10(k: nat): (p: nat)
    ensures p >= 1
  {
    if k == 0 then 1 else 10 * Pow10(k - 1)
  }

  lemma {:induction false} Pow10Monotone(a: nat, b: nat)
    requires a <= b
    ensures Pow10(a) <= Pow10(b)
  {
    if a < b {
      Pow10Monotone(a, b - 1);
    }
  }

  /** A positive number written with `k` digits lies in [10^(k-1), 10^k). */
  lemma {:induction false} DigitsLengthBounds(n: nat)
    requires n >= 1
    ensures |Digits(n)| >= 1 && Pow10(|Digits(n)| - 1) <= n < Pow10(|Digits(n)|)
  {
    if n >= 10 {
      DigitsLengthBounds(n / 10);
      var k := |Digits(n / 10)|;
      assert |Digits(n)| == k + 1;
      assert Pow10(k) == 10 * Pow10(k - 1);
      assert Pow10(k + 1) == 10 * Pow10(k);
    }
  }

  /** A positive number is written with exactly `d` digits iff it lies in [10^(d-1), 10^d - 1]. */
  lemma WidthIffRange(n: nat, d: nat)
    requires n >= 1 && d >= 1
    ensures |Digits(n)| == d <==> Pow10(d - 1) <= n <= Pow10(d) - 1
  {
    DigitsLengthBounds(n);
    var k := |Digits(n)|;
    if k < d {
      Pow10Monotone(k, d - 1);
    } else if k > d {
      Pow10Monotone(d, k - 1);
    }
  }

  // ---------------------------------------------------------------------------
  // the % operator

  function Abs(a: int): nat { if a < 0 then -a else a }

  /** JavaScript's `/` rounded toward zero, the quotient `%` goes with. */
  function TruncQuotient(a: int, b: int): int
    requires b != 0
  {
    var q := Abs(a) / Abs(b);
    if (a < 0) == (b < 0) then q else -q
  }

  /**
   * JavaScript's `a % b` on integers: the remainder of division rounded toward zero, carrying the
   * sign of the dividend (Dafny's own `%` is Euclidean and never negative).
   */
  function JsRem(a: int, b: int): (r: int)
    requires b != 0
    ensures Abs(r) < Abs(b)
    ensures r != 0 ==> (r < 0 <==> a < 0)
    ensures a - r == TruncQuotient(a, b) * b
  {
    var m := Abs(a) % Abs(b);
    assert Abs(a) == (Abs(a) / Abs(b)) * Abs(b) + m;
    if a < 0 then -m else m
  }
}
