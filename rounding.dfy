/**
 * The two numeric-to-text steps of the inference script that can be stated
 * exactly on the real value of a double: `np.round` (round half to even) and
 * the `"%0.5f"` fixed-point format used by the volumetric writer.
 */
module Rounding {
  import opened Text

  /** Integer `r` is the nearest integer to `x`, an exact tie going to the even one. */
  predicate IsNearestEven(x: real, r: int)
  {
    && x - 0.5 <= r as real <= x + 0.5
    && ((r as real == x - 0.5 || r as real == x + 0.5) ==> r % 2 == 0)
  }

  /** `np.round(x)` with zero decimals: round half to even. */
  function RoundHalfEven(x: real): (r: int)
    ensures IsNearestEven(x, r)
  {
    var f := x.Floor;
    var d := x - f as real;
    if d < 0.5 then f
    else if d > 0.5 then f + 1
    else if f % 2 == 0 then f
    else f + 1
  }

  /** The nearest-even integer is unique, so RoundHalfEven is the rounding rule and not one choice among several. */
  lemma RoundHalfEvenUnique(x: real, r: int)
    requires IsNearestEven(x, r)
    ensures r == RoundHalfEven(x)
  {
  }

  /**
   * On a probability, rounding yields 0 or 1, and it yields 1 exactly when the
   * probability is above one half (an exact 0.5 rounds to the even 0).
   */
  lemma RoundProbability(p: real)
    requires 0.0 <= p <= 1.0
    ensures RoundHalfEven(p) == 0 || RoundHalfEven(p) == 1
    ensures RoundHalfEven(p) == 1 <==> p > 0.5
  {
    var r := RoundHalfEven(p);
    if p == 0.5 {
      assert r == 0 || r == 1;
    }
  }

  /** 0.49999 rounds to 0, 0.50001 to 1, an exact 0.5 to the even 0, and 1.5 and 2.5 both to 2. */
  lemma RoundThresholdExamples()
    ensures RoundHalfEven(0.49999) == 0
    ensures RoundHalfEven(0.50001) == 1
    ensures RoundHalfEven(0.5) == 0
    ensures RoundHalfEven(1.5) == 2 && RoundHalfEven(2.5) == 2
  {
    RoundProbability(0.49999);
    RoundProbability(0.50001);
    RoundProbability(0.5);
  }

  function Abs(x: real): (a: real)
    ensures a >= 0.0 && (a == x || a == -x)
  {
    if x < 0.0 then -x else x
  }

  /** The number of units of 1e-5 printed for |x|. */
  function Fixed5Units(x: real): (n: nat)
  {
    var r := RoundHalfEven(Abs(x) * 100000.0);
    assert r >= 0;
    r
  }

  /**
   * `"%0.5f" % x`: a minus sign for a negative value, the integer part, a dot
   * and exactly five decimals, rounded half to even.
   */
  function Fixed5(x: real): (s: string)
    ensures |s| >= 7 && s[|s| - 6] == '.'
    ensures forall i :: 0 <= i < |s| ==> s[i] == '-' || s[i] == '.' || '0' <= s[i] <= '9'
  {
    UnitsText(x < 0.0, Fixed5Units(x))
  }

  /** A count of 1e-5 units as fixed-point text, with a leading minus sign when `neg`. */
  function UnitsText(neg: bool, n: nat): (s: string)
    ensures |s| >= 7 && s[|s| - 6] == '.'
    ensures forall i :: 0 <= i < |s| ==> s[i] == '-' || s[i] == '.' || '0' <= s[i] <= '9'
  {
    (if neg then "-" else "") + NatToString(n / 100000) + "." + PaddedDigits(n % 100000, 5)
  }

  /** Reads an unsigned fixed-point text (digits, a dot, five decimals) back as a number. */
  function ParseUnsignedFixed5(body: string): real
    requires |body| >= 6
  {
    ParseNat(body[..|body| - 6]) as real + ParseNat(body[|body| - 5..]) as real / 100000.0
  }

  /** Reads a `"%0.5f"` text back as a number. */
  function ParseFixed5(s: string): real
    requires |s| >= 7
  {
    if s[0] == '-' then -ParseUnsignedFixed5(s[1..]) else ParseUnsignedFixed5(s)
  }

  lemma ParseUnsigned(ip: string, fp: string)
    requires |fp| == 5
    ensures ParseUnsignedFixed5(ip + "." + fp) == ParseNat(ip) as real + ParseNat(fp) as real / 100000.0
  {
    var body := ip + "." + fp;
    assert body[..|body| - 6] == ip;
    assert body[|body| - 5..] == fp;
  }

  /** Fixed-point text of a unit count reads back as that count of 1e-5, with its sign. */
  lemma UnitsTextParse(neg: bool, n: nat)
    ensures ParseFixed5(UnitsText(neg, n)) == (if neg then -1.0 else 1.0) * (n as real / 100000.0)
  {
    var body := UnitsText(false, n);
    UnsignedTextParse(n);
    if neg {
      assert UnitsText(neg, n) == "-" + body;
      assert ("-" + body)[1..] == body;
    }
  }

  lemma UnsignedTextParse(n: nat)
    ensures UnitsText(false, n)[0] != '-'
    ensures ParseUnsignedFixed5(UnitsText(false, n)) == n as real / 100000.0
  {
    var ip, fp := NatToString(n / 100000), PaddedDigits(n % 100000, 5);
    assert UnitsText(false, n) == ip + "." + fp;
    ParseUnsigned(ip, fp);
    ParseNatToString(n / 100000);
    assert Pow10(5) == 100000;
    ParsePaddedDigits(n % 100000, 5, 100000);
    UnitsSplit(n);
  }

  lemma UnitsSplit(n: nat)
    ensures (n / 100000) as real + (n % 100000) as real / 100000.0 == n as real / 100000.0
  {
    var q, m := n / 100000, n % 100000;
    assert n == q * 100000 + m;
    assert n as real == q as real * 100000.0 + m as real;
  }

  /** Round trip of `"%0.5f"`: the text reads back within half a unit of the last decimal. */
  lemma Fixed5RoundTrip(x: real)
    ensures -0.000005 <= ParseFixed5(Fixed5(x)) - x <= 0.000005
  {
    var n := Fixed5Units(x);
    UnitsTextParse(x < 0.0, n);
    var a := Abs(x) * 100000.0;
    assert a - 0.5 <= n as real <= a + 0.5;
    assert Abs(x) - 0.000005 <= n as real / 100000.0 <= Abs(x) + 0.000005;
  }

  lemma {:induction false} ZeroPadded(width: nat)
    ensures PaddedDigits(0, width) == seq(width, _ => '0')
  {
    if width > 0 {
      ZeroPadded(width - 1);
      assert DigitChar(0) == '0';
    }
  }

  lemma FiveZeros()
    ensures PaddedDigits(0, 5) == "00000"
  {
    ZeroPadded(5);
  }

  /** `"%0.5f" % 0` is "0.00000". */
  lemma Fixed5Zero()
    ensures Fixed5(0.0) == "0.00000"
  {
    assert Fixed5Units(0.0) == 0 by { RoundHalfEvenUnique(0.0, 0); }
    assert UnitsText(false, 0) == "0.00000" by {
      FiveZeros();
      assert NatToString(0) == "0";
    }
  }

  /** `"%0.5f" % 1` is "1.00000". */
  lemma Fixed5One()
    ensures Fixed5(1.0) == "1.00000"
  {
    assert Fixed5Units(1.0) == 100000 by { RoundHalfEvenUnique(100000.0, 100000); }
    assert UnitsText(false, 100000) == "1.00000" by {
      FiveZeros();
      assert NatToString(1) == "1";
    }
  }
}
