/**
  What `formatVerbleibend` prints is itself a duration argument: `parseTime`
  reads every rendered component back with its unit, so the text denotes
  the same number of seconds, up to the saturation at MAX_MS.
 */
module FormatRoundTrip {
  import opened Wrappers
  import opened Text
  import opened Duration
  import opened TimeParser
  import opened Remaining

  /** The exact number of milliseconds the fields stand for. */
  function FieldMillis(fs: seq<Field>): nat {
    if fs == [] then 0 else fs[0].value * fs[0].unit.Millis() + FieldMillis(fs[1..])
  }

  /** The terms the scanner is expected to find in the joined text. */
  function Terms(fs: seq<Field>): (ts: seq<Term>)
    ensures |ts| == |fs|
  {
    if fs == [] then [] else [Term(NatToString(fs[0].value), Symbol(fs[0].unit))] + Terms(fs[1..])
  }

  /** The saturated contribution of each field. */
  function Capped(fs: seq<Field>): (vs: seq<Option<nat>>)
    ensures |vs| == |fs|
  {
    if fs == [] then [] else [Some(Min(MAX_MS, fs[0].value * fs[0].unit.Millis()))] + Capped(fs[1..])
  }

  /** Every symbol the formatter writes is a run of letters that names its own unit. */
  lemma SymbolParses(unit: Unit)
    ensures Symbol(unit) != [] && AllAlpha(Symbol(unit))
    ensures UnitOf(Lower(Symbol(unit))) == Some(unit)
  {
    SymbolIsLower(unit);
    SymbolIsWord(unit);
    SymbolNamesUnit(unit);
  }

  lemma SymbolIsWord(unit: Unit)
    ensures Symbol(unit) != [] && AllAlpha(Symbol(unit))
  {
  }

  lemma SymbolIsLower(unit: Unit)
    ensures Lower(Symbol(unit)) == Symbol(unit)
  {
    match unit
    case Millisecond => assert Lower("ms") == "ms";
    case Second => assert Lower("s") == "s";
    case Minute => assert Lower("m") == "m";
    case Hour => assert Lower("h") == "h";
    case Day => assert Lower("d") == "d";
    case Week => assert Lower("w") == "w";
    case Month => assert Lower("mo") == "mo";
    case Year => assert Lower("y") == "y";
  }

  lemma SymbolNamesUnit(unit: Unit)
    ensures UnitOf(Symbol(unit)) == Some(unit)
  {
  }

  /** A blank in front is skipped. */
  lemma ScanBlank(s: string)
    ensures Scan(" " + s) == Scan(s)
  {
    assert (" " + s)[1..] == s;
  }

  /** The scanner splits the joined text back into one term per field. */
  lemma {:induction false} ScanJoin(fs: seq<Field>)
    ensures Scan(Join(fs)) == Terms(fs)
    decreases |fs|
  {
    if fs != [] {
      var t := NatToString(fs[0].value);
      var u := Symbol(fs[0].unit);
      SymbolParses(fs[0].unit);
      DigitsAreNumberToken(t, false);
      if |fs| == 1 {
        ScanTerm(t, u, []);
        assert t + u + [] == Join(fs);
      } else {
        var rest := " " + Join(fs[1..]);
        ScanTerm(t, u, rest);
        ScanBlank(Join(fs[1..]));
        ScanJoin(fs[1..]);
      }
    }
  }

  /** Each term is worth its field's milliseconds, saturated. */
  lemma {:induction false} ValuesOfTerms(fs: seq<Field>)
    ensures Values(Terms(fs)) == Capped(fs)
    decreases |fs|
  {
    if fs != [] {
      var t := NatToString(fs[0].value);
      SymbolParses(fs[0].unit);
      WholeTermValue(t, Symbol(fs[0].unit), fs[0].unit);
      ValuesOfTerms(fs[1..]);
      assert Terms(fs)[1..] == Terms(fs[1..]);
    }
  }

  /** Summing saturated parts and saturating the sum is saturating the exact sum. */
  lemma {:induction false} CappedSum(fs: seq<Field>)
    ensures AllParse(Capped(fs))
    ensures Min(MAX_MS, Sum(Capped(fs))) == Min(MAX_MS, FieldMillis(fs))
    decreases |fs|
  {
    var vs := Capped(fs);
    if fs != [] {
      CappedSum(fs[1..]);
      assert vs[1..] == Capped(fs[1..]);
      forall k | 0 <= k < |vs| ensures vs[k].Some? {
        if k > 0 { assert vs[k] == Capped(fs[1..])[k - 1]; }
      }
    }
  }

  /** Leaving out zero fields does not change the duration. */
  lemma {:induction false} ShownMillis(fs: seq<Field>)
    ensures FieldMillis(Shown(fs)) == FieldMillis(fs)
    decreases |fs|
  {
    if fs != [] && fs[0].value == 0 {
      ShownMillis(fs[1..]);
      assert Shown(fs) == Shown(fs[1..]);
    }
  }

  /** The six components are worth a thousand milliseconds per second. */
  lemma FieldsMillis(c: Components)
    ensures FieldMillis(Fields(c)) == 1000 * Seconds(c)
  {
    var fs := Fields(c);
    assert FieldMillis(fs[5..]) == 1000 * c.seconds by {
      assert fs[5..][1..] == [];
    }
    assert FieldMillis(fs[4..]) == 60000 * c.minutes + 1000 * c.seconds by {
      assert fs[4..][1..] == fs[5..];
    }
    assert FieldMillis(fs[3..]) == 3600000 * c.hours + 60000 * c.minutes + 1000 * c.seconds by {
      assert fs[3..][1..] == fs[4..];
    }
    assert FieldMillis(fs[2..]) == 86400000 * c.days + 3600000 * c.hours + 60000 * c.minutes + 1000 * c.seconds by {
      assert fs[2..][1..] == fs[3..];
    }
    assert FieldMillis(fs[1..]) == 2592000000 * c.months + 86400000 * c.days + 3600000 * c.hours
      + 60000 * c.minutes + 1000 * c.seconds by {
      assert fs[1..][1..] == fs[2..];
    }
  }

  /** The rendered remaining time parses back to the same time, saturated at MAX_MS. */
  lemma RenderParses(totalSec: nat)
    ensures TimeValue(Render(totalSec)) == Min(MAX_MS, 1000 * totalSec)
  {
    var fs := Shown(Fields(Split(totalSec)));
    ScanJoin(fs);
    ValuesOfTerms(fs);
    CappedSum(fs);
    ShownMillis(Fields(Split(totalSec)));
    FieldsMillis(Split(totalSec));
  }
}
