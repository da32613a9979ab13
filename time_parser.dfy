/**
  `parseTime` (main.cpp:110-145): a compound duration such as "1h20m30s",
  "1.5h" or "90s" read left to right into milliseconds.

  The scan is specified by `Scan`, which cuts the argument into terms (a
  numeric token followed by a unit token), and by `TimeValue`, which gives
  the saturated sum of the terms' contributions, or 0 when a numeric token
  does not parse. The method `ParseTime` is the source's loop, proved to
  compute `TimeValue`.
 */
module TimeParser {
  import opened Wrappers
  import opened Text
  import opened Duration

  /**
    A numeric token as the scanner accepts it, `[0-9]*\.?[0-9]*`: digits and
    at most one dot, and no dot at all when one has already been seen (`dot`).
   */
  predicate NumberToken(t: string, dot: bool) {
    t == [] || ((IsDigit(t[0]) || (!dot && t[0] == '.')) && NumberToken(t[1..], dot || t[0] == '.'))
  }

  /** The length of the numeric token at the start of `s` (the loop at main.cpp:123-126). */
  function NumberLength(s: string, dot: bool): (k: nat)
    ensures k <= |s|
  {
    if s != [] && (IsDigit(s[0]) || (!dot && s[0] == '.')) then 1 + NumberLength(s[1..], dot || s[0] == '.')
    else 0
  }

  /** The numeric token the scanner takes is the longest prefix that is still a numeric token. */
  lemma {:induction false} NumberLengthIsLongestToken(s: string, dot: bool)
    ensures var k := NumberLength(s, dot);
      NumberToken(s[..k], dot) && (k < |s| ==> !NumberToken(s[..k + 1], dot))
  {
    if s != [] && (IsDigit(s[0]) || (!dot && s[0] == '.')) {
      var dot' := dot || s[0] == '.';
      var k := NumberLength(s[1..], dot');
      NumberLengthIsLongestToken(s[1..], dot');
      assert s[..k + 1][1..] == s[1..][..k];
      assert k + 1 < |s| ==> s[..k + 2][1..] == s[1..][..k + 1];
    }
  }

  /** A whole numeric token, followed by neither a digit nor a dot, is exactly what the scanner takes. */
  lemma {:induction false} NumberLengthOfToken(s: string, t: string, dot: bool)
    requires |t| <= |s| && s[..|t|] == t && NumberToken(t, dot)
    requires |t| == |s| || (!IsDigit(s[|t|]) && s[|t|] != '.')
    ensures NumberLength(s, dot) == |t|
  {
    if t != [] {
      assert s[0] == t[0];
      assert s[1..][..|t| - 1] == t[1..];
      NumberLengthOfToken(s[1..], t[1..], dot || t[0] == '.');
    }
  }

  /** The length of the unit token at the start of `s` (main.cpp:134): a maximal run of letters. */
  function LetterLength(s: string): (k: nat)
    ensures k <= |s|
  {
    if s != [] && IsAlpha(s[0]) then 1 + LetterLength(s[1..]) else 0
  }

  /** The unit token is a maximal run of letters. */
  lemma {:induction false} LetterLengthLetters(s: string)
    ensures var k := LetterLength(s);
      AllAlpha(s[..k]) && (k == |s| || !IsAlpha(s[k]))
  {
    if s != [] && IsAlpha(s[0]) {
      LetterLengthLetters(s[1..]);
      var k := LetterLength(s[1..]);
      assert s[..k + 1] == [s[0]] + s[1..][..k];
    }
  }

  /** A whole run of letters, followed by no letter, is exactly the unit token. */
  lemma {:induction false} LetterLengthOfLetters(s: string, u: string)
    requires |u| <= |s| && s[..|u|] == u && AllAlpha(u)
    requires |u| == |s| || !IsAlpha(s[|u|])
    ensures LetterLength(s) == |u|
  {
    if u != [] {
      assert s[0] == u[0];
      assert s[1..][..|u| - 1] == u[1..];
      LetterLengthOfLetters(s[1..], u[1..]);
    }
  }

  /** The position of the dot in a numeric token, or its length when it has none. */
  function DotPos(t: string): (p: nat)
    ensures p <= |t|
    ensures forall k :: 0 <= k < p ==> t[k] != '.'
    ensures p < |t| ==> t[p] == '.'
  {
    if t == [] || t[0] == '.' then 0 else 1 + DotPos(t[1..])
  }

  /** The number of digits after the dot. */
  function FractionDigits(t: string): nat {
    var p := DotPos(t);
    if p < |t| then |t| - p - 1 else 0
  }

  /** The digits of a numeric token read as one integer, ignoring the dot. */
  function Mantissa(t: string): nat {
    if t == [] then 0
    else
      var last := t[|t| - 1];
      if IsDigit(last) then Mantissa(t[..|t| - 1]) * 10 + DigitValue(last)
      else Mantissa(t[..|t| - 1])
  }

  predicate HasDigit(t: string) {
    exists k :: 0 <= k < |t| && IsDigit(t[k])
  }

  /**
    The value `stod` gives a numeric token, exactly: its digits as an integer,
    scaled down by one power of ten per digit after the dot. `stod` fails, and
    `safeStod` falls back to -1 (main.cpp:130-131), when the token has no digit.
   */
  function DecimalValue(t: string): (r: Option<real>)
    ensures r.Some? ==> r.value >= 0.0
  {
    if HasDigit(t) then Some(Mantissa(t) as real / Pow10(FractionDigits(t)) as real) else None
  }

  /** For a numeric token, only the lone dot (or nothing) fails to parse. */
  lemma DecimalValueFails(t: string)
    requires NumberToken(t, false)
    ensures DecimalValue(t).None? <==> t == [] || t == "."
  {
    if |t| >= 2 && !IsDigit(t[0]) {
      assert IsDigit(t[1]);
    }
    if t == "." {
      assert !IsDigit(t[0]);
    }
  }

  /** On a plain digit string the mantissa is the number it denotes. */
  lemma {:induction false} MantissaOfDigits(t: string)
    requires AllDigits(t)
    ensures Mantissa(t) == DigitsValue(t)
  {
    if t != [] {
      MantissaOfDigits(t[..|t| - 1]);
    }
  }

  /** A plain digit string reads back as the number it denotes. */
  lemma DecimalValueOfDigits(t: string)
    requires t != [] && AllDigits(t)
    ensures DecimalValue(t) == Some(DigitsValue(t) as real)
  {
    assert HasDigit(t) by {
      assert IsDigit(t[0]);
    }
    assert FractionDigits(t) == 0 by {
      assert forall k :: 0 <= k < |t| ==> t[k] != '.';
      assert DotPos(t) == |t|;
    }
    MantissaOfDigits(t);
    assert Pow10(0) == 1;
  }

  /** A digit appended to a token becomes the mantissa's last decimal place. */
  lemma MantissaSnoc(t: string, c: char)
    requires IsDigit(c)
    ensures Mantissa(t + [c]) == Mantissa(t) * 10 + DigitValue(c)
  {
    var u := t + [c];
    assert u[..|u| - 1] == t && u[|u| - 1] == c;
  }

  lemma ShiftPlace(m: int, p: int, v: int, c: int)
    ensures (m * p + v) * 10 + c == m * (10 * p) + (v * 10 + c)
  {
  }

  /** Appending digits shifts the mantissa left by one place per digit. */
  lemma {:induction false} MantissaAppend(t: string, d: string)
    requires AllDigits(d)
    ensures Mantissa(t + d) == Mantissa(t) * Pow10(|d|) + DigitsValue(d)
    decreases |d|
  {
    if d == [] {
      assert t + d == t;
    } else {
      var d', c := d[..|d| - 1], d[|d| - 1];
      assert t + d == (t + d') + [c];
      assert AllDigits(d');
      MantissaSnoc(t + d', c);
      MantissaAppend(t, d');
      assert DigitsValue(d) == DigitsValue(d') * 10 + DigitValue(c);
      assert Pow10(|d|) == 10 * Pow10(|d'|);
      ShiftPlace(Mantissa(t), Pow10(|d'|), DigitsValue(d'), DigitValue(c));
    }
  }

  /** Division distributes over a sum whose first part is a multiple of the divisor. */
  lemma DivideShifted(a: nat, b: nat, p: nat)
    requires p > 0
    ensures (a * p + b) as real / p as real == a as real + b as real / p as real
  {
    assert (a * p + b) as real == a as real * p as real + b as real;
  }

  /** In a token with a dot, the mantissa reads the digits on both sides as one number. */
  lemma MantissaOfFraction(a: string, b: string)
    requires AllDigits(a) && AllDigits(b)
    ensures Mantissa(a + "." + b) == DigitsValue(a) * Pow10(|b|) + DigitsValue(b)
  {
    var u := a + ".";
    assert u[..|u| - 1] == a;
    assert Mantissa(u) == Mantissa(a);
    MantissaOfDigits(a);
    MantissaAppend(u, b);
  }

  /** The dot of such a token comes right after the digits before it. */
  lemma FractionDigitsOfFraction(a: string, b: string)
    requires AllDigits(a)
    ensures FractionDigits(a + "." + b) == |b|
  {
    var t := a + "." + b;
    var p := DotPos(t);
    assert t[|a|] == '.';
    assert forall k :: 0 <= k < |a| ==> t[k] == a[k];
  }

  lemma FractionHasDigit(a: string, b: string)
    requires AllDigits(a) && AllDigits(b) && (a != [] || b != [])
    ensures HasDigit(a + "." + b)
  {
    var t := a + "." + b;
    if a != [] {
      assert IsDigit(t[0]);
    } else {
      assert IsDigit(t[1]);
    }
  }

  lemma DecimalValueOfParts(t: string, m: int, f: nat)
    requires HasDigit(t) && Mantissa(t) == m && FractionDigits(t) == f
    ensures DecimalValue(t) == Some(m as real / Pow10(f) as real)
  {
  }

  /** A token with a dot reads as its whole part plus its digits after the dot scaled down. */
  lemma {:induction false} DecimalValueOfFraction(a: string, b: string)
    requires AllDigits(a) && AllDigits(b) && (a != [] || b != [])
    ensures DecimalValue(a + "." + b) == Some(DigitsValue(a) as real + DigitsValue(b) as real / Pow10(|b|) as real)
  {
    var t := a + "." + b;
    var whole: int, frac: int, p: int := DigitsValue(a), DigitsValue(b), Pow10(|b|);
    FractionHasDigit(a, b);
    MantissaOfFraction(a, b);
    FractionDigitsOfFraction(a, b);
    DecimalValueOfParts(t, whole * p + frac, |b|);
    DivideShifted(whole, frac, p);
  }

  /** One (numeric token, unit token) pair found by the scanner. */
  datatype Term = Term(number: string, unit: string)

  /** The shape of every term: a non-empty numeric token and a run of letters. */
  predicate WellFormed(t: Term) {
    t.number != [] && NumberToken(t.number, false) && AllAlpha(t.unit)
  }

  /**
    The terms the scanner reads from `s`: white space is skipped; where no
    numeric token starts the scan stops; otherwise the numeric token and the
    letters after it form one term and the scan goes on behind them.
   */
  function Scan(s: string): (terms: seq<Term>)
    decreases |s|
  {
    if s == [] then []
    else if IsSpace(s[0]) then Scan(s[1..])
    else
      var k := NumberLength(s, false);
      if k == 0 then []
      else
        var u := k + LetterLength(s[k..]);
        [Term(s[..k], s[k..u])] + Scan(s[u..])
  }

  /** Every term the scan yields is a non-empty numeric token followed by letters. */
  lemma {:induction false} ScanWellFormed(s: string)
    ensures forall n :: 0 <= n < |Scan(s)| ==> WellFormed(Scan(s)[n])
    decreases |s|
  {
    if s != [] {
      if IsSpace(s[0]) {
        ScanWellFormed(s[1..]);
      } else {
        var k := NumberLength(s, false);
        if k > 0 {
          var u := k + LetterLength(s[k..]);
          ScanUnfold(s, k, u);
          var rest := Scan(s[u..]);
          ScanWellFormed(s[u..]);
          assert WellFormed(Term(s[..k], s[k..u])) by {
            NumberLengthIsLongestToken(s, false);
            LetterLengthLetters(s[k..]);
            assert s[k..u] == s[k..][..u - k];
          }
          forall n | 0 < n < |Scan(s)| ensures WellFormed(Scan(s)[n]) {
            assert Scan(s)[n] == rest[n - 1];
          }
        }
      }
    }
  }

  /** A run of digits is a numeric token. */
  lemma {:induction false} DigitsAreNumberToken(t: string, dot: bool)
    requires AllDigits(t)
    ensures NumberToken(t, dot)
    decreases |t|
  {
    if t != [] {
      DigitsAreNumberToken(t[1..], dot);
    }
  }

  /** A numeric token and the letters after it form the first term; the scan goes on behind them. */
  lemma ScanTerm(t: string, u: string, rest: string)
    requires t != [] && NumberToken(t, false) && AllAlpha(u)
    requires rest == [] || !IsAlpha(rest[0])
    requires u != [] || rest == [] || (!IsDigit(rest[0]) && rest[0] != '.')
    ensures Scan(t + u + rest) == [Term(t, u)] + Scan(rest)
  {
    var s := t + u + rest;
    assert s[..|t|] == t;
    if u != [] {
      assert s[|t|] == u[0];
    } else if rest != [] {
      assert s[|t|] == rest[0];
    }
    NumberLengthOfToken(s, t, false);
    assert s[|t|..][..|u|] == u;
    if rest != [] {
      assert s[|t|..][|u|] == rest[0];
    }
    LetterLengthOfLetters(s[|t|..], u);
    assert s[|t|..|t| + |u|] == u;
    assert s[|t| + |u|..] == rest;
  }

  /** A character that is neither white space, digit, dot nor letter: where the scanner stops. */
  predicate StopChar(c: char) {
    !IsSpace(c) && !IsDigit(c) && c != '.' && !IsAlpha(c)
  }

  lemma {:induction false} NumberLengthPrefix(p: string, q: string, dot: bool)
    requires q == [] || (!IsDigit(q[0]) && q[0] != '.')
    ensures NumberLength(p + q, dot) == NumberLength(p, dot)
  {
    if p != [] {
      assert (p + q)[0] == p[0];
      assert (p + q)[1..] == p[1..] + q;
      NumberLengthPrefix(p[1..], q, dot || p[0] == '.');
    } else if q != [] {
      assert (p + q)[0] == q[0];
    }
  }

  lemma {:induction false} LetterLengthPrefix(p: string, q: string)
    requires q == [] || !IsAlpha(q[0])
    ensures LetterLength(p + q) == LetterLength(p)
  {
    if p != [] {
      assert (p + q)[0] == p[0];
      assert (p + q)[1..] == p[1..] + q;
      LetterLengthPrefix(p[1..], q);
    } else if q != [] {
      assert (p + q)[0] == q[0];
    }
  }

  /** The scanner never looks past a stop character: whatever follows it is left unconsumed. */
  lemma {:induction false} ScanStopsAt(p: string, q: string)
    requires q != [] && StopChar(q[0])
    ensures Scan(p + q) == Scan(p)
    decreases |p|
  {
    var s := p + q;
    if p == [] {
      assert s == q;
    } else if IsSpace(p[0]) {
      assert s[0] == p[0];
      assert s[1..] == p[1..] + q;
      ScanStopsAt(p[1..], q);
    } else {
      var k := NumberLength(p, false);
      if k > 0 {
        var u := k + LetterLength(p[k..]);
        assert p[u..] + q == s[u..] by {
          NumberLengthPrefix(p, q, false);
        }
        ScanStopsAt(p[u..], q);
        ScanStopsAfterTerm(p, q, k, u);
      } else {
        assert s[0] == p[0];
        NumberLengthPrefix(p, q, false);
      }
    }
  }

  /** The step of `ScanStopsAt` past one term, given that the rest of the scan stops. */
  lemma ScanStopsAfterTerm(p: string, q: string, k: nat, u: nat)
    requires q != [] && StopChar(q[0]) && p != [] && !IsSpace(p[0])
    requires 0 < k == NumberLength(p, false) && u == k + LetterLength(p[k..])
    requires Scan(p[u..] + q) == Scan(p[u..])
    ensures Scan(p + q) == Scan(p)
  {
    TermLengthsPrefix(p, q, k);
    SlicesOfAppend(p, q, k, u);
    ScanUnfold(p + q, k, u);
    ScanUnfold(p, k, u);
  }

  /** A stop character after `p` changes neither the number nor the letters at the front. */
  lemma TermLengthsPrefix(p: string, q: string, k: nat)
    requires q != [] && StopChar(q[0]) && p != []
    requires k == NumberLength(p, false)
    ensures (p + q)[0] == p[0]
    ensures NumberLength(p + q, false) == k
    ensures LetterLength((p + q)[k..]) == LetterLength(p[k..])
  {
    NumberLengthPrefix(p, q, false);
    assert (p + q)[k..] == p[k..] + q;
    LetterLengthPrefix(p[k..], q);
  }

  lemma SlicesOfAppend<T>(p: seq<T>, q: seq<T>, k: nat, u: nat)
    requires k <= u <= |p|
    ensures (p + q)[..k] == p[..k] && (p + q)[k..u] == p[k..u] && (p + q)[u..] == p[u..] + q
  {
  }

  /**
    What one term adds to the total before saturation, or None when its
    numeric token does not parse (`safeStod` falls back to -1).
   */
  function TermValue(t: Term): (v: Option<nat>)
    ensures v.Some? ==> v.value <= MAX_MS
  {
    match DecimalValue(t.number)
    case None => None
    case Some(x) => Some(UnitToMilliseconds(x, t.unit))
  }

  /** The values of a sequence of terms, in order. */
  function Values(terms: seq<Term>): (vs: seq<Option<nat>>)
    ensures |vs| == |terms|
  {
    if terms == [] then [] else [TermValue(terms[0])] + Values(terms[1..])
  }

  predicate AllParse(vs: seq<Option<nat>>) {
    forall k :: 0 <= k < |vs| ==> vs[k].Some?
  }

  /** The exact sum of all values. */
  function Sum(vs: seq<Option<nat>>): nat
    requires AllParse(vs)
  {
    if vs == [] then 0 else vs[0].value + Sum(vs[1..])
  }

  /**
    The duration an argument denotes: 0 if some numeric token does not parse,
    otherwise the sum of all contributions saturated at MAX_MS.
   */
  function TimeValue(arg: string): (ms: int)
    ensures 0 <= ms <= MAX_MS
  {
    Total(Values(Scan(arg)))
  }

  /** The saturated sum of the values, or 0 when one of them is missing. */
  function Total(vs: seq<Option<nat>>): (ms: int)
    ensures 0 <= ms <= MAX_MS
  {
    if AllParse(vs) then Min(MAX_MS, Sum(vs)) else 0
  }

  /** The saturating addition of main.cpp:138-141. */
  function SatAdd(total: int, add: int): (r: int)
    requires 0 <= total <= MAX_MS && 0 <= add
    ensures r == Min(MAX_MS, total + add)
  {
    if add > 0 then
      if total > MAX_MS - add then MAX_MS else total + add
    else total
  }

  /**
    The accumulation the source's loop performs, term by term: a term whose
    number does not parse ends everything with 0, the others are added with
    saturation.
   */
  function Accumulate(total: int, vs: seq<Option<nat>>): int
    requires 0 <= total <= MAX_MS
    decreases vs
  {
    if vs == [] then total
    else match vs[0]
      case None => 0
      case Some(v) => Accumulate(SatAdd(total, v), vs[1..])
  }

  /** Saturating term by term is saturating the whole sum once. */
  lemma {:induction false} AccumulateIsSaturatedSum(total: int, vs: seq<Option<nat>>)
    requires 0 <= total <= MAX_MS
    ensures Accumulate(total, vs) == if AllParse(vs) then Min(MAX_MS, total + Sum(vs)) else 0
    decreases vs
  {
    if vs != [] {
      var rest := vs[1..];
      match vs[0]
      case None =>
        assert !AllParse(vs);
      case Some(v) =>
        AccumulateIsSaturatedSum(SatAdd(total, v), rest);
        assert AllParse(vs) <==> AllParse(rest) by {
          if AllParse(rest) {
            forall k | 0 <= k < |vs| ensures vs[k].Some? {
              if k > 0 { assert vs[k] == rest[k - 1]; }
            }
          }
        }
    }
  }

  /** The loop's accumulation over the whole argument is the duration it denotes. */
  lemma AccumulateGivesTotal(vs: seq<Option<nat>>)
    ensures Accumulate(0, vs) == Total(vs)
  {
    AccumulateIsSaturatedSum(0, vs);
  }

  /** Whatever follows a character the scanner stops at does not change the duration. */
  lemma TimeValueStopsAt(p: string, q: string)
    requires q != [] && StopChar(q[0])
    ensures TimeValue(p + q) == TimeValue(p)
  {
    ScanStopsAt(p, q);
  }

  /** The empty argument denotes no time at all. */
  lemma TimeValueEmpty()
    ensures TimeValue([]) == 0
  {
  }

  /** A numeric token that is a lone dot does not parse, and the whole argument gives 0. */
  lemma LoneDotGivesZero(u: string, rest: string)
    requires AllAlpha(u) && (rest == [] || !IsAlpha(rest[0]))
    requires u != [] || rest == [] || (!IsDigit(rest[0]) && rest[0] != '.')
    ensures TimeValue("." + u + rest) == 0
  {
    assert NumberToken(".", false);
    ScanTerm(".", u, rest);
    assert !HasDigit(".");
    assert Values(Scan("." + u + rest))[0] == TermValue(Term(".", u));
    assert !AllParse(Values(Scan("." + u + rest)));
  }

  /** A term with an unknown unit adds nothing, and the scan goes on after it. */
  lemma UnknownUnitAddsNothing(t: string, u: string, rest: string)
    requires t != [] && NumberToken(t, false) && DecimalValue(t).Some?
    requires AllAlpha(u) && UnitOf(Lower(u)).None?
    requires rest == [] || !IsAlpha(rest[0])
    requires u != [] || rest == [] || (!IsDigit(rest[0]) && rest[0] != '.')
    ensures TimeValue(t + u + rest) == TimeValue(rest)
  {
    ScanTerm(t, u, rest);
    var vs := Values(Scan(rest));
    assert Values(Scan(t + u + rest)) == [Some(0)] + vs;
    TotalCons(0, vs);
  }

  /** The total of one more value in front. */
  lemma TotalCons(v: nat, vs: seq<Option<nat>>)
    ensures Total([Some(v)] + vs) == if AllParse(vs) then Min(MAX_MS, v + Sum(vs)) else 0
  {
    var ws := [Some(v)] + vs;
    assert ws[1..] == vs;
    if AllParse(vs) {
      forall k | 0 <= k < |ws| ensures ws[k].Some? {
        if k > 0 { assert ws[k] == vs[k - 1]; }
      }
    } else {
      var k :| 0 <= k < |vs| && vs[k].None?;
      assert ws[k + 1] == vs[k];
    }
  }

  /** A whole number followed by a known unit adds the exact product, saturated. */
  lemma WholeTermValue(t: string, u: string, unit: Unit)
    requires t != [] && AllDigits(t)
    requires UnitOf(Lower(u)) == Some(unit)
    ensures TermValue(Term(t, u)) == Some(Min(MAX_MS, DigitsValue(t) * unit.Millis()))
  {
    DecimalValueOfDigits(t);
    UnitToMillisecondsWhole(DigitsValue(t), u, unit);
  }

  /** The white-space loop of main.cpp:118. */
  method SkipWhiteSpace(arg: string, i0: nat) returns (i: nat)
    requires i0 <= |arg|
    ensures i0 <= i <= |arg| && (i == |arg| || !IsSpace(arg[i]))
    ensures Scan(arg[i..]) == Scan(arg[i0..])
  {
    i := i0;
    while i < |arg| && IsSpace(arg[i])
      invariant i0 <= i <= |arg| && Scan(arg[i..]) == Scan(arg[i0..])
    {
      assert arg[i..][1..] == arg[i + 1..];
      i := i + 1;
    }
  }

  /** The digits-and-one-dot loop of main.cpp:121-126. */
  method SkipNumber(arg: string, start: nat) returns (i: nat)
    requires start <= |arg|
    ensures i == start + NumberLength(arg[start..], false)
  {
    i := start;
    var dot := false;
    while i < |arg| && (IsDigit(arg[i]) || (!dot && arg[i] == '.'))
      invariant start <= i <= |arg|
      invariant i - start + NumberLength(arg[i..], dot) == NumberLength(arg[start..], false)
    {
      assert arg[i..][1..] == arg[i + 1..];
      if arg[i] == '.' {
        dot := true;
      }
      i := i + 1;
    }
  }

  /** The letters loop of main.cpp:133-134. */
  method SkipLetters(arg: string, unitStart: nat) returns (i: nat)
    requires unitStart <= |arg|
    ensures i == unitStart + LetterLength(arg[unitStart..])
  {
    i := unitStart;
    while i < |arg| && IsAlpha(arg[i])
      invariant unitStart <= i <= |arg|
      invariant i - unitStart + LetterLength(arg[i..]) == LetterLength(arg[unitStart..])
    {
      assert arg[i..][1..] == arg[i + 1..];
      i := i + 1;
    }
  }

  /** The scan of the rest of the argument, one term taken off, as the loop body sees it. */
  lemma ScanAt(arg: string, start: nat, i: nat, j: nat)
    requires start < i <= j <= |arg| && !IsSpace(arg[start])
    requires i == start + NumberLength(arg[start..], false)
    requires j == i + LetterLength(arg[i..])
    ensures Scan(arg[start..]) == [Term(arg[start..i], arg[i..j])] + Scan(arg[j..])
  {
    var s, k, u := arg[start..], i - start, j - start;
    assert s[k..] == arg[i..];
    ScanUnfold(s, k, u);
    assert s[..k] == arg[start..i];
    assert s[k..u] == arg[i..j];
    assert s[u..] == arg[j..];
  }

  /** One term taken off the front of the scan. */
  lemma ScanUnfold(s: string, k: nat, u: nat)
    requires s != [] && !IsSpace(s[0])
    requires 0 < k == NumberLength(s, false) && u == k + LetterLength(s[k..])
    ensures Scan(s) == [Term(s[..k], s[k..u])] + Scan(s[u..])
  {
    var t := Term(s[..k], s[k..u]);
    var rest := Scan(s[u..]);
    assert !(s == []) && !IsSpace(s[0]) && NumberLength(s, false) != 0;
    assert Scan(s) == [t] + rest;
  }

  /** The term at `start` of the argument, added to the running total. */
  lemma AccumulateAt(arg: string, start: nat, i: nat, j: nat, total: int)
    requires start < i <= |arg| && !IsSpace(arg[start]) && 0 <= total <= MAX_MS
    requires i == start + NumberLength(arg[start..], false)
    requires j == i + LetterLength(arg[i..])
    requires DecimalValue(arg[start..i]).Some?
    ensures Accumulate(total, Values(Scan(arg[start..])))
      == Accumulate(SatAdd(total, UnitToMilliseconds(DecimalValue(arg[start..i]).value, arg[i..j])), Values(Scan(arg[j..])))
  {
    ScanAt(arg, start, i, j);
    var term := Term(arg[start..i], arg[i..j]);
    var rest := Scan(arg[j..]);
    assert Values([term] + rest) == [TermValue(term)] + Values(rest);
  }

  /** A term at `start` whose number does not parse makes the whole result 0. */
  lemma AccumulateFailsAt(arg: string, start: nat, i: nat, total: int)
    requires start < i <= |arg| && !IsSpace(arg[start]) && 0 <= total <= MAX_MS
    requires i == start + NumberLength(arg[start..], false)
    requires DecimalValue(arg[start..i]).None?
    ensures Accumulate(total, Values(Scan(arg[start..]))) == 0
  {
    var j := i + LetterLength(arg[i..]);
    ScanAt(arg, start, i, j);
    var term := Term(arg[start..i], arg[i..j]);
    var rest := Scan(arg[j..]);
    assert Values([term] + rest) == [TermValue(term)] + Values(rest);
  }

  /**
    `parseTime`, as the source writes it: an index advancing through the
    argument and a running total updated in place.
   */
  method ParseTime(arg: string) returns (totalMs: int)
    ensures totalMs == TimeValue(arg)
  {
    AccumulateGivesTotal(Values(Scan(arg)));
    ghost var goal := Accumulate(0, Values(Scan(arg)));
    totalMs := 0;
    var i := 0;
    var n := |arg|;
    assert arg[0..] == arg;
    while i < n
      invariant 0 <= i <= n && 0 <= totalMs <= MAX_MS
      invariant Accumulate(totalMs, Values(Scan(arg[i..]))) == goal
      decreases n - i
    {
      ghost var before := totalMs;
      i := SkipWhiteSpace(arg, i);
      if i >= n {
        break;
      }

      var start := i;
      i := SkipNumber(arg, i);
      if start == i {
        break;
      }

      var numberStr := arg[start..i];
      var value := DecimalValue(numberStr);
      if value.None? {
        // safeStod's fallback -1 is negative: the whole parse yields 0
        AccumulateFailsAt(arg, start, i, totalMs);
        return 0;
      }

      var unitStart := i;
      i := SkipLetters(arg, i);
      var unit := arg[unitStart..i];

      var addMs := UnitToMilliseconds(value.value, unit);
      if addMs > 0 {
        if totalMs > MAX_MS - addMs {
          totalMs := MAX_MS;
        } else {
          totalMs := totalMs + addMs;
        }
      }
      AccumulateAt(arg, start, unitStart, i, before);
      assert totalMs == SatAdd(before, addMs);
    }
  }
}
