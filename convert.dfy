/**
  `safeStoi` (main.cpp:54-65): the whole argument as a base-10 `int`, or a
  fallback. The program is built for Windows, where `long` is 32 bits wide
  like `int`; see `SafeStoiAsWritten` and `SafeStoi` below.
 */
module Convert {
  import opened Wrappers
  import opened Text

  const INT_MIN: int := -0x8000_0000
  const INT_MAX: int := 0x7FFF_FFFF

  /** The range of `long` under the Windows data model the program is built for. */
  const LONG_MIN: int := -0x8000_0000
  const LONG_MAX: int := 0x7FFF_FFFF

  /**
    The integer `stol(s, &pos, 10)` reads when it consumes all of `s`: leading
    white space, an optional sign and at least one decimal digit, nothing after.
    None when `stol` finds no digits (it throws) or stops early (`pos != size`).
    The value is exact: range checks come afterwards.
   */
  function WholeInteger(s: string): (r: Option<int>)
    ensures r.Some? ==> exists k :: 0 <= k < |s| && IsDigit(s[k])
    ensures r.Some? && r.value < 0 ==> '-' in s
  {
    var rest := s[SkipSpaces(s, 0)..];
    if |rest| > 0 && (rest[0] == '+' || rest[0] == '-') then
      var digits := rest[1..];
      if |digits| > 0 && AllDigits(digits) then
        assert IsDigit(s[|s| - 1]);
        var magnitude: int := DigitsValue(digits);
        Some(if rest[0] == '-' then -magnitude else magnitude)
      else None
    else if |rest| > 0 && AllDigits(rest) then
      assert IsDigit(s[|s| - 1]);
      Some(DigitsValue(rest))
    else None
  }

  predicate AllSpaces(s: string) {
    forall k :: 0 <= k < |s| ==> IsSpace(s[k])
  }

  /** `s` is white space `sp`, then an optional sign, then the digits `d`. */
  predicate Spelling(s: string, sp: string, sign: string, d: string) {
    s == sp + sign + d && AllSpaces(sp) && (sign == "" || sign == "+" || sign == "-")
    && d != [] && AllDigits(d)
  }

  /** The value of such a spelling. */
  function SpelledValue(sign: string, d: string): int
    requires AllDigits(d)
  {
    var magnitude: int := DigitsValue(d);
    if sign == "-" then -magnitude else magnitude
  }

  /** The white-space skip stops where a run of spaces is followed by a non-space. */
  lemma {:induction false} SkipSpacesTo(s: string, i: nat, j: nat)
    requires i <= j <= |s|
    requires forall k :: i <= k < j ==> IsSpace(s[k])
    requires j == |s| || !IsSpace(s[j])
    ensures SkipSpaces(s, i) == j
    decreases j - i
  {
    if i < j {
      SkipSpacesTo(s, i + 1, j);
    }
  }

  /** Every spelling of an integer that `stol` accepts in full reads as its value. */
  lemma WholeIntegerOfSpelling(s: string, sp: string, sign: string, d: string)
    requires Spelling(s, sp, sign, d)
    ensures WholeInteger(s) == Some(SpelledValue(sign, d))
  {
    assert !IsSpace(s[|sp|]) by {
      assert s[|sp|] == if sign == "" then d[0] else sign[0];
    }
    SkipSpacesTo(s, 0, |sp|);
    var rest := s[|sp|..];
    if sign == "" {
      assert rest == d;
    } else {
      assert rest[0] == sign[0] && rest[1..] == d;
    }
  }

  /** Nothing but such a spelling is accepted. */
  lemma WholeIntegerOnlySpellings(s: string)
    requires WholeInteger(s).Some?
    ensures exists sp, sign, d :: Spelling(s, sp, sign, d) && WholeInteger(s) == Some(SpelledValue(sign, d))
  {
    var i := SkipSpaces(s, 0);
    var rest := s[i..];
    var sign := if rest[0] == '+' then "+" else if rest[0] == '-' then "-" else "";
    var d := rest[|sign|..];
    assert s == s[..i] + sign + d;
    assert Spelling(s, s[..i], sign, d);
    WholeIntegerOfSpelling(s, s[..i], sign, d);
  }

  /** The decimal text of an integer, with a minus sign when it is negative. */
  function IntToString(x: int): (s: string)
    ensures |s| >= 1
  {
    if x < 0 then "-" + NatToString(-x) else NatToString(x)
  }

  /** Saturation into the range of `int` (main.cpp:59-60). */
  function ClampInt(v: int): (r: int)
    ensures INT_MIN <= r <= INT_MAX
    ensures INT_MIN <= v <= INT_MAX ==> r == v
    ensures v < INT_MIN ==> r == INT_MIN
    ensures v > INT_MAX ==> r == INT_MAX
  {
    if v < INT_MIN then INT_MIN else if v > INT_MAX then INT_MAX else v
  }

  /**
    `safeStoi` as the program behaves on its platform: a value outside the
    range of a 32-bit `long` makes `stol` throw `out_of_range`, which the
    catch-all turns into the fallback, before the clamps are reached.
   */
  function SafeStoiAsWritten(s: string, fallback: int): (r: int)
    ensures WholeInteger(s).None? ==> r == fallback
  {
    match WholeInteger(s)
    case None => fallback
    case Some(v) =>
      if v < LONG_MIN || v > LONG_MAX then fallback
      else ClampInt(v)
  }

  /**
    `safeStoi` as its clamps intend: a whole-string integer is saturated into
    the range of `int`; anything else gives the fallback.
   */
  function SafeStoi(s: string, fallback: int): (r: int)
    ensures WholeInteger(s).None? ==> r == fallback
    ensures WholeInteger(s).Some? ==> INT_MIN <= r <= INT_MAX
    ensures WholeInteger(s).Some? && INT_MIN <= WholeInteger(s).value <= INT_MAX ==> r == WholeInteger(s).value
    ensures WholeInteger(s).Some? && WholeInteger(s).value > INT_MAX ==> r == INT_MAX
    ensures WholeInteger(s).Some? && WholeInteger(s).value < INT_MIN ==> r == INT_MIN
  {
    match WholeInteger(s)
    case None => fallback
    case Some(v) => ClampInt(v)
  }

  /** `stol` reads back what `IntToString` writes. */
  lemma {:induction false} WholeIntegerRoundTrip(x: int)
    ensures WholeInteger(IntToString(x)) == Some(x)
  {
    var s := IntToString(x);
    assert SkipSpaces(s, 0) == 0;
    if x < 0 {
      assert s[0..][1..] == NatToString(-x);
    } else {
      assert s[0..] == NatToString(x);
    }
  }

  /** A number that fits an `int` survives `safeStoi` unchanged. */
  lemma SafeStoiRoundTrip(x: int, fallback: int)
    requires INT_MIN <= x <= INT_MAX
    ensures SafeStoi(IntToString(x), fallback) == x
    ensures SafeStoiAsWritten(IntToString(x), fallback) == x
  {
    WholeIntegerRoundTrip(x);
  }

  /** On the program's platform the clamps of main.cpp:59-60 are never reached. */
  lemma AsWrittenNeverClamps(s: string, fallback: int)
    ensures var w := WholeInteger(s);
      SafeStoiAsWritten(s, fallback) ==
        if w.Some? && INT_MIN <= w.value <= INT_MAX then w.value else fallback
  {
  }

  /** The two readings differ only on a whole-string integer outside the range of `int`. */
  lemma SafeStoiAgrees(s: string, fallback: int)
    requires WholeInteger(s).None? || INT_MIN <= WholeInteger(s).value <= INT_MAX
    ensures SafeStoiAsWritten(s, fallback) == SafeStoi(s, fallback)
  {
  }

  /** The discrepancy: a too-large count is dropped instead of saturated. */
  lemma AsWrittenDropsLargeValues(n: nat, fallback: int)
    requires n > INT_MAX
    ensures SafeStoiAsWritten(NatToString(n), fallback) == fallback
    ensures SafeStoi(NatToString(n), fallback) == INT_MAX
  {
    WholeIntegerRoundTrip(n);
  }
}
