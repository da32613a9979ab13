/**
  `formatVerbleibend` (main.cpp:340-372): a number of seconds written as
  years (365 days), months (30 days), days, hours, minutes and seconds, with
  the components before the first non-zero one left out, for example
  "1h 0m 5s" for 3605 seconds.
 */
module Remaining {
  import opened Text
  import opened Duration

  const SEC_PER_MIN: nat := 60
  const SEC_PER_HOUR: nat := 3600
  const SEC_PER_DAY: nat := 86400
  const SEC_PER_MONTH: nat := 2592000
  const SEC_PER_YEAR: nat := 31536000

  /** The radices as main.cpp:341-345 builds them. */
  lemma Radices()
    ensures SEC_PER_HOUR == 60 * SEC_PER_MIN && SEC_PER_DAY == 24 * SEC_PER_HOUR
    ensures SEC_PER_MONTH == 30 * SEC_PER_DAY && SEC_PER_YEAR == 365 * SEC_PER_DAY
  {
  }

  datatype Components = Components(years: nat, months: nat, days: nat, hours: nat, minutes: nat, seconds: nat)

  /** The number of seconds the components stand for. */
  function Seconds(c: Components): nat {
    c.years * SEC_PER_YEAR + c.months * SEC_PER_MONTH + c.days * SEC_PER_DAY
      + c.hours * SEC_PER_HOUR + c.minutes * SEC_PER_MIN + c.seconds
  }

  /** Each component below the year is below its radix, and what lies below a year is less than a year. */
  predicate Normal(c: Components) {
    && c.seconds < 60 && c.minutes < 60 && c.hours < 24 && c.days < 30
    && Seconds(c.(years := 0)) < SEC_PER_YEAR
  }

  /** The mixed-radix split of main.cpp:347-352. */
  function Split(totalSec: nat): (c: Components)
    ensures Seconds(c) == totalSec && Normal(c)
    ensures c.months <= 12
  {
    var years := totalSec / SEC_PER_YEAR;
    var r1 := totalSec % SEC_PER_YEAR;
    var months := r1 / SEC_PER_MONTH;
    var r2 := r1 % SEC_PER_MONTH;
    var days := r2 / SEC_PER_DAY;
    var r3 := r2 % SEC_PER_DAY;
    var hours := r3 / SEC_PER_HOUR;
    var r4 := r3 % SEC_PER_HOUR;
    Components(years, months, days, hours, r4 / SEC_PER_MIN, r4 % SEC_PER_MIN)
  }

  /** The split is the only normal form of a number of seconds. */
  lemma SplitUnique(c: Components)
    requires Normal(c)
    ensures Split(Seconds(c)) == c
  {
    var below := Seconds(c.(years := 0));
    assert Seconds(c) == c.years * SEC_PER_YEAR + below;
    var r3 := c.hours * SEC_PER_HOUR + c.minutes * SEC_PER_MIN + c.seconds;
    var r2 := c.days * SEC_PER_DAY + r3;
    assert below == c.months * SEC_PER_MONTH + r2;
  }

  /** One printed component: a value and the unit whose symbol follows it. */
  datatype Field = Field(value: nat, unit: Unit)

  /** The symbol `formatVerbleibend` writes after each value (main.cpp:364-369). */
  function Symbol(unit: Unit): string {
    match unit
    case Millisecond => "ms"
    case Second => "s"
    case Minute => "m"
    case Hour => "h"
    case Day => "d"
    case Week => "w"
    case Month => "mo"
    case Year => "y"
  }

  /** The components in the order they are appended. */
  function Fields(c: Components): (fs: seq<Field>)
    ensures |fs| == 6
  {
    [Field(c.years, Year), Field(c.months, Month), Field(c.days, Day),
     Field(c.hours, Hour), Field(c.minutes, Minute), Field(c.seconds, Second)]
  }

  /** The number of leading fields whose value is 0. */
  function Leading(fs: seq<Field>): (k: nat)
    ensures k <= |fs|
  {
    if fs == [] || fs[0].value > 0 then 0 else 1 + Leading(fs[1..])
  }

  /** The leading fields are exactly the zeros before the first non-zero field. */
  lemma {:induction false} LeadingZeros(fs: seq<Field>)
    ensures forall i :: 0 <= i < Leading(fs) ==> fs[i].value == 0
    ensures Leading(fs) < |fs| ==> fs[Leading(fs)].value > 0
    decreases |fs|
  {
    if fs != [] && fs[0].value == 0 {
      LeadingZeros(fs[1..]);
    }
  }

  /** The fields that are printed: all of them from the first non-zero one on. */
  function Shown(fs: seq<Field>): seq<Field> {
    fs[Leading(fs)..]
  }

  /** One field as text: the decimal value and the unit symbol. */
  function Piece(f: Field): string {
    NatToString(f.value) + Symbol(f.unit)
  }

  /** The pieces separated by single blanks. */
  function Join(fs: seq<Field>): string {
    if fs == [] then ""
    else if |fs| == 1 then Piece(fs[0])
    else Piece(fs[0]) + (" " + Join(fs[1..]))
  }

  /** What `formatVerbleibend(totalSec)` returns. */
  function Render(totalSec: nat): string {
    Join(Shown(Fields(Split(totalSec))))
  }

  /** Zero seconds print as the empty string. */
  lemma RenderZero()
    ensures Render(0) == ""
  {
    var fs := Fields(Split(0));
    assert Leading(fs) == 6;
  }

  /** Any positive number of seconds prints something, and the seconds always close it. */
  lemma RenderPositive(totalSec: nat)
    requires totalSec > 0
    ensures Shown(Fields(Split(totalSec))) != []
    ensures Shown(Fields(Split(totalSec)))[0].value > 0
    ensures Shown(Fields(Split(totalSec)))[|Shown(Fields(Split(totalSec)))| - 1]
      == Field(totalSec % SEC_PER_MIN, Second)
  {
    var c := Split(totalSec);
    var fs := Fields(c);
    var j := if c.years > 0 then 0 else if c.months > 0 then 1 else if c.days > 0 then 2
      else if c.hours > 0 then 3 else if c.minutes > 0 then 4 else 5;
    assert fs[j].value > 0;
    LeadingZeros(fs);
  }

  /** A run of zero fields at the front is all counted as leading. */
  lemma {:induction false} LeadingAtLeast(fs: seq<Field>, m: nat)
    requires m <= |fs| && forall i :: 0 <= i < m ==> fs[i].value == 0
    ensures Leading(fs) >= m
    decreases m
  {
    if m > 0 {
      LeadingAtLeast(fs[1..], m - 1);
    }
  }

  /** Under a minute only the seconds are printed; from a year on all six components are. */
  lemma ShownCount(totalSec: nat)
    ensures totalSec < SEC_PER_MIN ==> |Shown(Fields(Split(totalSec)))| <= 1
    ensures totalSec >= SEC_PER_YEAR ==> Shown(Fields(Split(totalSec))) == Fields(Split(totalSec))
  {
    var c := Split(totalSec);
    var fs := Fields(c);
    if totalSec < SEC_PER_MIN {
      assert c.years == 0 && c.months == 0 && c.days == 0 && c.hours == 0 && c.minutes == 0;
      LeadingAtLeast(fs, 5);
    }
    if totalSec >= SEC_PER_YEAR {
      assert c.years > 0 && Leading(fs) == 0;
    }
  }

  /** Appending one more field to the joined text. */
  lemma {:induction false} JoinSnoc(fs: seq<Field>, f: Field)
    requires fs != []
    ensures Join(fs + [f]) == Join(fs) + " " + Piece(f)
    decreases |fs|
  {
    var g := fs + [f];
    assert g[0] == fs[0] && g[1..] == fs[1..] + [f];
    JoinCons(g);
    if |fs| > 1 {
      JoinCons(fs);
      JoinSnoc(fs[1..], f);
      SpacedAssoc(Piece(fs[0]), Join(fs[1..]), Piece(f));
    }
  }

  /** A join of two or more pieces starts with the first piece and a blank. */
  lemma JoinCons(fs: seq<Field>)
    requires |fs| >= 2
    ensures Join(fs) == Piece(fs[0]) + (" " + Join(fs[1..]))
  {
  }

  lemma SpacedAssoc(a: string, b: string, c: string)
    ensures a + (" " + (b + " " + c)) == (a + (" " + b)) + " " + c
  {
  }

  /** How the leading zeros grow by one more field. */
  lemma {:induction false} LeadingSnoc(fs: seq<Field>, f: Field)
    ensures Leading(fs + [f]) ==
      if Leading(fs) < |fs| then Leading(fs)
      else if f.value > 0 then |fs| else |fs| + 1
    decreases |fs|
  {
    if fs != [] {
      assert (fs + [f])[1..] == fs[1..] + [f];
      LeadingSnoc(fs[1..], f);
    }
  }

  /** Which fields are shown once one more field follows. */
  lemma ShownSnoc(fs: seq<Field>, f: Field)
    ensures Shown(fs + [f]) ==
      if Leading(fs) < |fs| then Shown(fs) + [f]
      else if f.value > 0 then [f] else []
  {
    LeadingSnoc(fs, f);
    if Leading(fs) < |fs| {
      ShownAfterNonZero(fs, f);
    } else {
      ShownAfterZeros(fs, f);
    }
  }

  lemma ShownAfterNonZero(fs: seq<Field>, f: Field)
    requires Leading(fs) < |fs| && Leading(fs + [f]) == Leading(fs)
    ensures Shown(fs + [f]) == Shown(fs) + [f]
  {
    SliceSnoc(fs, f, Leading(fs));
  }

  lemma SliceSnoc<T>(s: seq<T>, x: T, i: nat)
    requires i <= |s|
    ensures (s + [x])[i..] == s[i..] + [x]
  {
  }

  lemma ShownAfterZeros(fs: seq<Field>, f: Field)
    requires Leading(fs + [f]) == if f.value > 0 then |fs| else |fs| + 1
    ensures Shown(fs + [f]) == if f.value > 0 then [f] else []
  {
    if f.value > 0 {
      SliceSnoc(fs, f, |fs|);
    }
  }

  /** The state of the string stream and the `first` flag after the fields `fs[..k]`. */
  predicate Written(text: string, first: bool, fs: seq<Field>, k: nat)
    requires k <= |fs|
  {
    text == Join(Shown(fs[..k])) && first == (Leading(fs[..k]) == k)
  }

  /** Once every field has been appended, the stream holds the joined shown fields. */
  lemma WrittenAll(text: string, first: bool, fs: seq<Field>, k: nat)
    requires k == |fs| && Written(text, first, fs, k)
    ensures text == Join(Shown(fs))
  {
    assert fs[..|fs|] == fs;
  }

  /**
    The `append` lambda of main.cpp:356-362: a field is written when it is
    non-zero or something has been written before, preceded by a blank in
    the latter case. The fields `fs[..k]` have been appended so far, and
    `f` is `fs[k]`.
   */
  method Append(text: string, first: bool, f: Field, ghost fs: seq<Field>, ghost k: nat)
    returns (text': string, first': bool)
    requires k < |fs| && fs[k] == f
    requires Written(text, first, fs, k)
    ensures Written(text', first', fs, k + 1)
  {
    var done := fs[..k];
    assert fs[..k + 1] == done + [f];
    LeadingSnoc(done, f);
    ShownSnoc(done, f);
    text', first' := text, first;
    if f.value > 0 || !first {
      if !first {
        text' := text' + " ";
      }
      text' := text' + NatToString(f.value) + Symbol(f.unit);
      first' := false;
    }
    if !first {
      JoinSnoc(Shown(done), f);
    }
  }

  /** The split of main.cpp:347-352, by repeated division of what is left. */
  method SplitSeconds(totalSec: nat) returns (c: Components)
    ensures Seconds(c) == totalSec && Normal(c)
    ensures c == Split(totalSec)
  {
    var rest := totalSec;
    var years := rest / SEC_PER_YEAR;
    rest := rest % SEC_PER_YEAR;
    var months := rest / SEC_PER_MONTH;
    rest := rest % SEC_PER_MONTH;
    var days := rest / SEC_PER_DAY;
    rest := rest % SEC_PER_DAY;
    var hours := rest / SEC_PER_HOUR;
    rest := rest % SEC_PER_HOUR;
    var minutes := rest / SEC_PER_MIN;
    rest := rest % SEC_PER_MIN;
    c := Components(years, months, days, hours, minutes, rest);
  }

  /** The six calls of `append` at main.cpp:364-369, one per field in order. */
  method AppendAll(fs: seq<Field>) returns (text: string)
    ensures text == Join(Shown(fs))
  {
    text := "";
    var first := true;
    for k := 0 to |fs|
      invariant Written(text, first, fs, k)
    {
      text, first := Append(text, first, fs[k], fs, k);
    }
    WrittenAll(text, first, fs, |fs|);
  }

  /** `formatVerbleibend`: the split, then the components appended behind the `first` flag. */
  method FormatRemaining(totalSec: nat) returns (text: string)
    ensures text == Render(totalSec)
  {
    var c := SplitSeconds(totalSec);
    text := AppendAll(Fields(c));
  }
}
