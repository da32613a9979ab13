/** Worked examples of the duration syntax, each reduced to the general parser lemmas. */
module TimeExamples {
  import opened Wrappers
  import opened Text
  import opened Duration
  import opened TimeParser

  /** A lone term: a number and its unit, with nothing after them. */
  lemma ScanSingle(t: string, u: string)
    requires t != [] && NumberToken(t, false) && AllAlpha(u)
    ensures Scan(t + u) == [Term(t, u)]
  {
    ScanTerm(t, u, []);
    assert t + u + [] == t + u;
  }

  lemma ScanHalf()
    ensures Scan("1.5h") == [Term("1.5", "h")]
  {
    assert NumberToken("1.5", false);
    ScanSingle("1.5", "h");
    assert "1.5" + "h" == "1.5h";
  }

  lemma ValueHalf()
    ensures TermValue(Term("1.5", "h")) == Some(5400000)
  {
    assert DecimalValue("1.5") == Some(1.5) by {
      assert IsDigit("1.5"[0]);
      assert DotPos("1.5") == 1;
      assert Mantissa("1.5") == 15 by {
        assert "1.5"[..2] == "1.";
        assert "1."[..1] == "1";
      }
    }
    assert UnitToMilliseconds(1.5, "h") == 5400000 by {
      assert Lower("h") == "h";
    }
  }

  lemma ExampleHalfHour()
    ensures TimeValue("1.5h") == 5400000
  {
    ScanHalf();
    ValueHalf();
    assert Values(Scan("1.5h")) == [Some(5400000)];
  }

  lemma ScanSeconds()
    ensures Scan("30s") == [Term("30", "s")]
  {
    assert NumberToken("30", false);
    ScanSingle("30", "s");
    assert "30" + "s" == "30s";
  }

  lemma ScanNinety()
    ensures Scan("90s") == [Term("90", "s")]
  {
    assert NumberToken("90", false);
    ScanSingle("90", "s");
    assert "90" + "s" == "90s";
  }

  lemma SpellMinSec()
    ensures "1" + "m" + "30s" == "1m30s"
  {
  }

  lemma SpellSpaced()
    ensures "2" + [] + " h" == "2 h"
  {
  }

  lemma ScanMinutes()
    ensures Scan("1m30s") == [Term("1", "m")] + Scan("30s")
  {
    assert NumberToken("1", false);
    ScanTerm("1", "m", "30s");
    SpellMinSec();
  }

  lemma MinuteValue()
    ensures TermValue(Term("1", "m")) == Some(60000)
  {
    assert DigitsValue("1") == 1 && Lower("m") == "m";
    WholeTermValue("1", "m", Minute);
  }

  lemma SecondValue()
    ensures TermValue(Term("30", "s")) == Some(30000)
  {
    assert DigitsValue("30") == 30 by { assert "30"[..1] == "3"; }
    assert Lower("s") == "s";
    WholeTermValue("30", "s", Second);
  }

  lemma NinetyValue()
    ensures TermValue(Term("90", "s")) == Some(90000)
  {
    assert DigitsValue("90") == 90 by { assert "90"[..1] == "9"; }
    assert Lower("s") == "s";
    WholeTermValue("90", "s", Second);
  }

  lemma ScanMinSec()
    ensures Scan("1m30s") == [Term("1", "m"), Term("30", "s")]
  {
    ScanSeconds();
    ScanMinutes();
  }

  lemma ExampleCompound()
    ensures TimeValue("1m30s") == 90000
  {
    var a, b := Term("1", "m"), Term("30", "s");
    ScanMinSec();
    MinuteValue();
    SecondValue();
    ValuesOfTwo(a, b);
    TotalOfTwo(60000, 30000);
  }

  lemma ValuesOfTwo(a: Term, b: Term)
    ensures Values([a, b]) == [TermValue(a), TermValue(b)]
  {
    assert [a, b][1..] == [b];
  }

  lemma TotalOfTwo(x: nat, y: nat)
    requires x + y <= MAX_MS
    ensures Total([Some(x), Some(y)]) == x + y
  {
    var vs: seq<Option<nat>> := [Some(x), Some(y)];
    assert vs[1..] == [Some(y)] && |vs[1..][1..]| == 0;
    assert AllParse(vs);
    assert Sum(vs) == x + Sum([Some(y)]);
  }

  lemma SpellHours()
    ensures "1" + "h" + "20m30s" == "1h20m30s"
  {
  }

  lemma SpellTwenty()
    ensures "20" + "m" + "30s" == "20m30s"
  {
  }

  lemma ScanTwenty()
    ensures Scan("20m30s") == [Term("20", "m")] + Scan("30s")
  {
    assert NumberToken("20", false);
    ScanTerm("20", "m", "30s");
    SpellTwenty();
  }

  lemma ScanHours()
    ensures Scan("1h20m30s") == [Term("1", "h")] + Scan("20m30s")
  {
    assert NumberToken("1", false);
    ScanTerm("1", "h", "20m30s");
    SpellHours();
  }

  lemma ScanHoursMinSec()
    ensures Scan("1h20m30s") == [Term("1", "h"), Term("20", "m"), Term("30", "s")]
  {
    ScanSeconds();
    ScanTwenty();
    ScanHours();
  }

  lemma HourValue()
    ensures TermValue(Term("1", "h")) == Some(3600000)
  {
    assert DigitsValue("1") == 1 && Lower("h") == "h";
    WholeTermValue("1", "h", Hour);
  }

  lemma TwentyMinutesValue()
    ensures TermValue(Term("20", "m")) == Some(1200000)
  {
    assert DigitsValue("20") == 20 by { assert "20"[..1] == "2"; }
    assert Lower("m") == "m";
    WholeTermValue("20", "m", Minute);
  }

  lemma ValuesOfThree(a: Term, b: Term, c: Term)
    ensures Values([a, b, c]) == [TermValue(a), TermValue(b), TermValue(c)]
  {
    assert [a, b, c][1..] == [b, c];
    ValuesOfTwo(b, c);
  }

  lemma TotalOfThree(x: nat, y: nat, z: nat)
    requires x + y + z <= MAX_MS
    ensures Total([Some(x), Some(y), Some(z)]) == x + y + z
  {
    var vs: seq<Option<nat>> := [Some(x), Some(y), Some(z)];
    var tail: seq<Option<nat>> := [Some(y), Some(z)];
    assert vs[1..] == tail;
    TotalOfTwo(y, z);
    assert AllParse(vs) && AllParse(tail);
    assert Sum(vs) == x + Sum(tail);
  }

  /** The first example of the comment at main.cpp:111. */
  lemma ExampleHoursMinutesSeconds()
    ensures TimeValue("1h20m30s") == 4830000
  {
    ScanHoursMinSec();
    HourValue();
    TwentyMinutesValue();
    SecondValue();
    ValuesOfThree(Term("1", "h"), Term("20", "m"), Term("30", "s"));
    TotalOfThree(3600000, 1200000, 30000);
  }

  lemma ExampleNinety()
    ensures TimeValue("90s") == 90000
  {
    ScanNinety();
    NinetyValue();
    assert Values(Scan("90s")) == [Some(90000)];
  }

  lemma ScanCenturies()
    ensures Scan("300y") == [Term("300", "y")]
  {
    assert NumberToken("300", false);
    ScanSingle("300", "y");
    assert "300" + "y" == "300y";
  }

  lemma CenturiesValue()
    ensures TermValue(Term("300", "y")) == Some(9_460_800_000_000)
  {
    assert DigitsValue("300") == 300 by { assert "300"[..2] == "30" && "30"[..1] == "3"; }
    assert Lower("y") == "y";
    WholeTermValue("300", "y", Year);
  }

  /** Three hundred years lie far below MAX_MS. */
  lemma ExampleThreeHundredYears()
    ensures TimeValue("300y") == 9_460_800_000_000
  {
    ScanCenturies();
    CenturiesValue();
    assert Values(Scan("300y")) == [Some(9_460_800_000_000)];
  }

  /** A unit separated from its number by a space is not read: "2 h" is two seconds. */
  lemma ExampleSpacedUnit()
    ensures TimeValue("2 h") == 2000
  {
    var term := Term("2", []);
    ScanSpaced();
    assert TermValue(term) == Some(2000) by {
      WholeTermValue("2", [], Second);
    }
    ValuesOfOne(term);
    TotalOfOne(2000);
  }

  lemma ValuesOfOne(a: Term)
    ensures Values([a]) == [TermValue(a)]
  {
    assert [a][1..] == [];
  }

  lemma TotalOfOne(x: nat)
    requires x <= MAX_MS
    ensures Total([Some(x)]) == x
  {
    var vs: seq<Option<nat>> := [Some(x)];
    var none: seq<Option<nat>> := [];
    assert vs[1..] == none;
    assert AllParse(vs);
    assert Sum(vs) == x + Sum(none) == x;
    assert Total(vs) == x;
  }

  lemma ScanSpaced()
    ensures Scan("2 h") == [Term("2", [])]
  {
    assert NumberToken("2", false);
    ScanTerm("2", [], " h");
    SpellSpaced();
    assert Scan(" h") == Scan("h") == [];
  }

  /** An unknown unit contributes nothing. */
  lemma ExampleUnknownUnit()
    ensures TimeValue("5x") == 0
  {
    assert NumberToken("5", false);
    assert DecimalValue("5") == Some(5.0) by {
      DecimalValueOfDigits("5");
      assert DigitsValue("5") == 5;
    }
    assert Lower("x") == "x";
    UnknownUnitAddsNothing("5", "x", []);
    assert "5" + "x" + [] == "5x";
  }
}
