/**
 * The parts of the .NET base library that TaskTrackerCLI relies on:
 * 32-bit integers with C#'s unchecked `+ 1`, `int.TryParse`, integer
 * formatting, `char.IsWhiteSpace` / `string.IsNullOrWhiteSpace` and the
 * ordinal case-insensitive comparison behind `Enum.TryParse(.., true, ..)`.
 */
module DotNet {
  import opened Wrappers

  const MinInt32: int := -0x8000_0000
  const MaxInt32: int := 0x7FFF_FFFF

  /** System.Int32 */
  type Int32 = x: int | MinInt32 <= x <= MaxInt32

  /** C#'s unchecked `x + 1` on an `int`: the result is `x + 1` modulo 2^32, read back as a signed value. */
  function Increment(x: Int32): (r: Int32)
    ensures r == (x + 1 - MinInt32) % 0x1_0000_0000 + MinInt32
  {
    if x == MaxInt32 then MinInt32 else x + 1
  }

  // ---------------------------------------------------------------------------
  // White space

  /**
   * `char.IsWhiteSpace`: the Unicode space separators (U+0020, U+00A0, U+1680,
   * U+2000..U+200A, U+202F, U+205F, U+3000), the line and paragraph separators
   * U+2028 and U+2029, and the control characters U+0009..U+000D and U+0085.
   */
  predicate IsWhiteSpace(c: char)
    ensures IsNumberWhite(c) ==> IsWhiteSpace(c)
    ensures IsWhiteSpace(c) ==> !IsDigit(c) && c != '+' && c != '-' && FoldCase(c) == c
  {
    || c == ' ' || ('\t' <= c <= '\r') || c == '\U{85}' || c == '\U{A0}' || c == '\U{1680}'
    || ('\U{2000}' <= c <= '\U{200A}') || c == '\U{2028}' || c == '\U{2029}'
    || c == '\U{202F}' || c == '\U{205F}' || c == '\U{3000}'
  }

  /** `string.IsNullOrWhiteSpace`, where `None` is C#'s `null`: the empty string counts as white space. */
  predicate IsNullOrWhiteSpace(s: Option<string>)
    ensures s.None? || s.value == [] ==> IsNullOrWhiteSpace(s)
    ensures IsNullOrWhiteSpace(s) && s.Some? ==> TryParseInt32(s.value).None?
  {
    s.None? || (BlankIsNotANumber(s.value); forall i :: 0 <= i < |s.value| ==> IsWhiteSpace(s.value[i]))
  }

  /** Text made only of white space never parses as a number. */
  lemma BlankIsNotANumber(t: string)
    ensures (forall i :: 0 <= i < |t| ==> IsWhiteSpace(t[i])) ==> TryParseInt32(t).None?
  {
    if forall i :: 0 <= i < |t| ==> IsWhiteSpace(t[i]) {
      var front := TrimStart(t);
      var u := TrimEnd(front);
      if u != [] {
        var last := u[|u| - 1];
        assert last == t[|t| - |front| + |u| - 1];
        assert IsWhiteSpace(last) && !IsDigit(last);
        var digits := u[SignLength(u)..];
        if digits != [] {
          assert digits[|digits| - 1] == last;
          assert !AllDigits(digits);
        }
        assert SignedValue(u).None?;
      }
    }
  }

  // ---------------------------------------------------------------------------
  // int.TryParse with NumberStyles.Integer

  /** The white space `int.TryParse` skips around a number: U+0009..U+000D and U+0020. */
  predicate IsNumberWhite(c: char) {
    c == ' ' || '\t' <= c <= '\r'
  }

  predicate IsDigit(c: char) {
    '0' <= c <= '9'
  }

  predicate AllDigits(s: string) {
    forall i :: 0 <= i < |s| ==> IsDigit(s[i])
  }

  function DigitValue(c: char): nat
    requires IsDigit(c)
  {
    c as int - '0' as int
  }

  function DigitChar(d: nat): char
    requires d < 10
  {
    ('0' as int + d) as char
  }

  /** `s` without its leading number white space. */
  function TrimStart(s: string): (r: string)
    ensures |r| <= |s| && r == s[|s| - |r|..]
    ensures forall i :: 0 <= i < |s| - |r| ==> IsNumberWhite(s[i])
    ensures r != [] ==> !IsNumberWhite(r[0])
  {
    if s != [] && IsNumberWhite(s[0]) then TrimStart(s[1..]) else s
  }

  /** `s` without its trailing number white space. */
  function TrimEnd(s: string): (r: string)
    ensures |r| <= |s| && r == s[..|r|]
    ensures forall i :: |r| <= i < |s| ==> IsNumberWhite(s[i])
    ensures r != [] ==> !IsNumberWhite(r[|r| - 1])
  {
    if s != [] && IsNumberWhite(s[|s| - 1]) then TrimEnd(s[..|s| - 1]) else s
  }

  /** The value of a string of decimal digits, most significant first. */
  function DigitsValue(s: string): nat
    requires AllDigits(s)
  {
    if s == [] then 0 else DigitsValue(s[..|s| - 1]) * 10 + DigitValue(s[|s| - 1])
  }

  /** `s` without the number white space around it. */
  function Trim(s: string): string {
    TrimEnd(TrimStart(s))
  }

  /** 1 when `t` starts with a sign, else 0. */
  function SignLength(t: string): nat {
    if t != [] && (t[0] == '-' || t[0] == '+') then 1 else 0
  }

  /** The value of an optional `+` or `-` followed by at least one ASCII digit. */
  function SignedValue(t: string): Option<int> {
    var digits := t[SignLength(t)..];
    if digits == [] || !AllDigits(digits) then None
    else if t[0] == '-' then Some(0 - DigitsValue(digits))
    else Some(DigitsValue(digits))
  }

  /**
   * `int.TryParse(s, out id)` in its default style: optional surrounding white
   * space, an optional `+` or `-`, at least one ASCII digit, and a value inside
   * the Int32 range; anything else fails.
   */
  function TryParseInt32(s: string): (r: Option<Int32>)
    ensures r.Some? ==> var t := Trim(s); SignLength(t) < |t| && AllDigits(t[SignLength(t)..])
  {
    match SignedValue(Trim(s))
    case Some(v) => if MinInt32 <= v <= MaxInt32 then Some(v) else None
    case None => None
  }

  /** A plain string of digits whose value fits in an Int32 parses to that value. */
  lemma PlainDigitsParse(s: string)
    requires s != [] && AllDigits(s) && DigitsValue(s) <= MaxInt32
    ensures TryParseInt32(s) == Some(DigitsValue(s))
  {
    DigitsUnpadded(s);
    DigitsSigned(s);
  }

  /** Digits whose value exceeds `int.MaxValue` do not parse: there is no wrap-around. */
  lemma OverflowFails(s: string)
    requires Trim(s) != [] && AllDigits(Trim(s)) && DigitsValue(Trim(s)) > MaxInt32
    ensures TryParseInt32(s).None?
  {
    DigitsSigned(Trim(s));
  }

  /** A plain string of digits has no white space to trim. */
  lemma DigitsUnpadded(s: string)
    ensures s != [] && AllDigits(s) ==> Trim(s) == s
  {
    if s != [] && AllDigits(s) {
      TrimUnpadded(s);
    }
  }

  /** A plain string of digits, with no sign, has the value of its digits. */
  lemma DigitsSigned(t: string)
    ensures t != [] && AllDigits(t) ==> SignedValue(t) == Some(DigitsValue(t))
  {
    if t != [] && AllDigits(t) {
      assert SignLength(t) == 0 && t[0..] == t;
    }
  }

  /** The `out` value `int.TryParse` leaves behind: the parsed value, or 0 on failure. */
  function ParsedOrZero(s: string): (r: Int32)
    ensures TryParseInt32(s).None? ==> r == 0
    ensures r != 0 ==> TryParseInt32(s) == Some(r)
  {
    match TryParseInt32(s)
    case Some(v) => v
    case None => 0
  }

  // ---------------------------------------------------------------------------
  // Integer formatting (string interpolation of an int)

  /** The decimal digits of `n`, without leading zeros. */
  function NatToString(n: nat): (r: string)
    ensures r != [] && AllDigits(r)
    decreases n
  {
    if n < 10 then [DigitChar(n)] else NatToString(n / 10) + [DigitChar(n % 10)]
  }

  /** `n.ToString()`: a `-` before the digits of a negative number. */
  function IntToString(n: int): (r: string)
    ensures r != [] && (r[0] == '-' <==> n < 0)
    ensures AllDigits(r[if n < 0 then 1 else 0..])
  {
    if n < 0 then "-" + NatToString(-n) else NatToString(n)
  }

  lemma {:induction false} NatToStringValue(n: nat)
    ensures DigitsValue(NatToString(n)) == n
    decreases n
  {
    var s := NatToString(n);
    if n >= 10 {
      NatToStringValue(n / 10);
      assert s[..|s| - 1] == NatToString(n / 10);
    }
  }

  /** Trimming leaves alone a string that neither starts nor ends with number white space. */
  lemma TrimUnpadded(s: string)
    requires s != [] && !IsNumberWhite(s[0]) && !IsNumberWhite(s[|s| - 1])
    ensures Trim(s) == s
  {
  }

  /** Formatting an Int32 and parsing the text back gives the same number. */
  lemma ParseFormatRoundTrip(n: Int32)
    ensures TryParseInt32(IntToString(n)) == Some(n)
  {
    var s := IntToString(n);
    FormatShape(n);
    TrimUnpadded(s);
    FormatValue(n);
  }

  lemma FormatShape(n: int)
    ensures var s := IntToString(n); s != [] && !IsNumberWhite(s[0]) && !IsNumberWhite(s[|s| - 1])
  {
    var m: nat := if n < 0 then -n else n;
    var digits := NatToString(m);
    assert IntToString(n) == (if n < 0 then "-" else "") + digits;
  }

  lemma FormatValue(n: int)
    ensures SignedValue(IntToString(n)) == Some(n)
  {
    var s := IntToString(n);
    if n < 0 {
      var digits := NatToString(-n);
      NatToStringValue(-n);
      assert s == "-" + digits && s[1..] == digits;
    } else {
      var digits := NatToString(n);
      NatToStringValue(n);
      assert s == digits && IsDigit(s[0]);
    }
  }

  /** Number white space around the text does not change what `int.TryParse` yields. */
  lemma ParseIgnoresPadding(before: string, s: string, after: string)
    requires forall i :: 0 <= i < |before| ==> IsNumberWhite(before[i])
    requires forall i :: 0 <= i < |after| ==> IsNumberWhite(after[i])
    ensures TryParseInt32(before + s + after) == TryParseInt32(s)
  {
    TrimPadding(before, s, after);
  }

  lemma TrimPadding(before: string, s: string, after: string)
    requires forall i :: 0 <= i < |before| ==> IsNumberWhite(before[i])
    requires forall i :: 0 <= i < |after| ==> IsNumberWhite(after[i])
    ensures Trim(before + s + after) == Trim(s)
  {
    assert before + s + after == before + (s + after);
    TrimStartSkips(before, s + after);
    if TrimStart(s) == [] {
      TrimStartOfBlank(s, after);
      TrimStartSkips(after, []);
      assert after + [] == after;
    } else {
      TrimStartAppend(s, after);
      TrimEndSkips(TrimStart(s), after);
    }
  }

  lemma {:induction false} TrimStartSkips(before: string, s: string)
    requires forall i :: 0 <= i < |before| ==> IsNumberWhite(before[i])
    ensures TrimStart(before + s) == TrimStart(s)
    decreases |before|
  {
    if before == [] {
      assert before + s == s;
    } else {
      assert (before + s)[0] == before[0];
      assert (before + s)[1..] == before[1..] + s;
      TrimStartSkips(before[1..], s);
    }
  }

  lemma {:induction false} TrimEndSkips(s: string, after: string)
    requires forall i :: 0 <= i < |after| ==> IsNumberWhite(after[i])
    ensures TrimEnd(s + after) == TrimEnd(s)
    decreases |after|
  {
    if after == [] {
      assert s + after == s;
    } else {
      assert (s + after)[|s + after| - 1] == after[|after| - 1];
      assert (s + after)[..|s + after| - 1] == s + after[..|after| - 1];
      TrimEndSkips(s, after[..|after| - 1]);
    }
  }

  lemma {:induction false} TrimStartAppend(s: string, after: string)
    requires TrimStart(s) != []
    ensures TrimStart(s + after) == TrimStart(s) + after
    decreases |s|
  {
    if IsNumberWhite(s[0]) {
      assert (s + after)[0] == s[0];
      assert (s + after)[1..] == s[1..] + after;
      TrimStartAppend(s[1..], after);
    } else {
      assert (s + after)[0] == s[0];
    }
  }

  /** Text that trims away entirely also disappears from the front of a longer text. */
  lemma {:induction false} TrimStartOfBlank(s: string, after: string)
    requires TrimStart(s) == []
    ensures TrimStart(s + after) == TrimStart(after)
    decreases |s|
  {
    if s == [] {
      assert s + after == after;
    } else {
      assert (s + after)[0] == s[0];
      assert (s + after)[1..] == s[1..] + after;
      TrimStartOfBlank(s[1..], after);
    }
  }

  // ---------------------------------------------------------------------------
  // Ordinal case-insensitive comparison

  /** Upper-casing as done by an ordinal case-insensitive comparison, for the ASCII letters. */
  function FoldCase(c: char): char {
    if 'a' <= c <= 'z' then (c as int - 'a' as int + 'A' as int) as char else c
  }

  function FoldCaseString(s: string): (r: string)
    ensures |r| == |s| && forall i :: 0 <= i < |s| ==> r[i] == FoldCase(s[i])
  {
    seq(|s|, i requires 0 <= i < |s| => FoldCase(s[i]))
  }

  /** `string.Equals(a, b, StringComparison.OrdinalIgnoreCase)` */
  predicate EqualsIgnoreCase(a: string, b: string) {
    |a| == |b| && forall i :: 0 <= i < |a| ==> FoldCase(a[i]) == FoldCase(b[i])
  }

  /** Two strings are equal ignoring case exactly when their folded forms are equal. */
  lemma EqualsIgnoreCaseFolded(a: string, b: string)
    ensures EqualsIgnoreCase(a, b) <==> FoldCaseString(a) == FoldCaseString(b)
  {
    if FoldCaseString(a) == FoldCaseString(b) {
      forall i | 0 <= i < |a| ensures FoldCase(a[i]) == FoldCase(b[i]) {
        assert FoldCaseString(a)[i] == FoldCaseString(b)[i];
      }
    }
  }
}
