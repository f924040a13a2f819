/**
 * Python string helpers the inference script relies on: `sep.join(parts)`,
 * `s.split(sep)`, `str(n)` for a natural number, and `s.replace(old, new)`.
 */
module Text {

  /** `sep.join(parts)` for a one-character separator. */
  function Join(sep: char, parts: seq<string>): string
  {
    if |parts| == 0 then ""
    else if |parts| == 1 then parts[0]
    else parts[0] + [sep] + Join(sep, parts[1..])
  }

  /** `s.split(sep)` for a one-character separator: never empty, and empty fields are kept. */
  function Split(sep: char, s: string): (parts: seq<string>)
    ensures |parts| >= 1
  {
    if s == [] then [""]
    else
      var rest := Split(sep, s[1..]);
      if s[0] == sep then [""] + rest
      else [[s[0]] + rest[0]] + rest[1..]
  }

  /** Number of occurrences of `c` in `s`. */
  function CountChar(c: char, s: string): nat
  {
    if s == [] then 0
    else (if s[0] == c then 1 else 0) + CountChar(c, s[1..])
  }

  lemma {:induction false} CountCharAppend(c: char, a: string, b: string)
    ensures CountChar(c, a + b) == CountChar(c, a) + CountChar(c, b)
  {
    if a == [] {
      assert a + b == b;
    } else {
      assert (a + b)[1..] == a[1..] + b;
      CountCharAppend(c, a[1..], b);
    }
  }

  lemma {:induction false} CountCharAbsent(c: char, s: string)
    requires c !in s
    ensures CountChar(c, s) == 0
  {
    if s != [] {
      assert c !in s[1..];
      CountCharAbsent(c, s[1..]);
    }
  }

  /** A field free of the separator splits to itself. */
  lemma {:induction false} SplitNoSep(sep: char, p: string)
    requires sep !in p
    ensures Split(sep, p) == [p]
  {
    if p != [] {
      assert sep !in p[1..];
      SplitNoSep(sep, p[1..]);
      assert [p[0]] + p[1..] == p;
    }
  }

  /** Splitting `p + sep + t` cuts at the first separator when `p` has none. */
  lemma {:induction false} SplitCons(sep: char, p: string, t: string)
    requires sep !in p
    ensures Split(sep, p + [sep] + t) == [p] + Split(sep, t)
  {
    if p == [] {
      assert p + [sep] + t == [sep] + t;
      assert ([sep] + t)[1..] == t;
    } else {
      var s := p + [sep] + t;
      assert s[0] == p[0] && s[1..] == p[1..] + [sep] + t;
      assert sep !in p[1..];
      SplitCons(sep, p[1..], t);
      assert [p[0]] + p[1..] == p;
    }
  }

  /** Splitting at a separator in the middle: the fields of the left part, then those of the right part. */
  lemma {:induction false} SplitAppend(sep: char, x: string, y: string)
    ensures Split(sep, x + [sep] + y) == Split(sep, x) + Split(sep, y)
  {
    if x == [] {
      assert x + [sep] + y == [sep] + y;
      assert ([sep] + y)[1..] == y;
    } else {
      var s := x + [sep] + y;
      assert s[0] == x[0] && s[1..] == x[1..] + [sep] + y;
      SplitAppend(sep, x[1..], y);
    }
  }

  /** Round trip: splitting a join of separator-free fields gives the fields back. */
  lemma {:induction false} SplitJoin(sep: char, parts: seq<string>)
    requires |parts| >= 1
    requires forall i :: 0 <= i < |parts| ==> sep !in parts[i]
    ensures Split(sep, Join(sep, parts)) == parts
  {
    if |parts| == 1 {
      SplitNoSep(sep, parts[0]);
    } else {
      SplitCons(sep, parts[0], Join(sep, parts[1..]));
      SplitJoin(sep, parts[1..]);
      assert [parts[0]] + parts[1..] == parts;
    }
  }

  /** Three separator-free fields joined by the separator split back into those fields. */
  lemma SplitThree(sep: char, a: string, b: string, c: string)
    requires sep !in a && sep !in b && sep !in c
    ensures Split(sep, a + [sep] + b + [sep] + c) == [a, b, c]
  {
    var bc := b + [sep] + c;
    assert a + [sep] + b + [sep] + c == a + [sep] + bc;
    SplitCons(sep, a, bc);
    SplitCons(sep, b, c);
    SplitNoSep(sep, c);
  }

  /** Round trip the other way: joining the fields of a split rebuilds the string. */
  lemma {:induction false} JoinSplit(sep: char, s: string)
    ensures Join(sep, Split(sep, s)) == s
  {
    if s != [] {
      var rest := Split(sep, s[1..]);
      JoinSplit(sep, s[1..]);
      if s[0] == sep {
        assert Split(sep, s) == [""] + rest;
        assert ([""] + rest)[1..] == rest;
        assert [sep] + s[1..] == s;
      } else {
        var parts := [[s[0]] + rest[0]] + rest[1..];
        assert Split(sep, s) == parts;
        if |rest| == 1 {
          assert parts == [[s[0]] + rest[0]];
          assert [s[0]] + s[1..] == s;
        } else {
          assert parts[1..] == rest[1..];
          assert Join(sep, rest) == rest[0] + [sep] + Join(sep, rest[1..]);
          assert [s[0]] + s[1..] == s;
        }
      }
    }
  }

  /** The last field of a split holds no separator. */
  lemma {:induction false} SplitLastHasNoSep(sep: char, s: string)
    ensures sep !in Split(sep, s)[|Split(sep, s)| - 1]
  {
    if s != [] {
      SplitLastHasNoSep(sep, s[1..]);
    }
  }

  /** Every field of a split is free of the separator. */
  lemma {:induction false} SplitFieldsHaveNoSep(sep: char, s: string)
    ensures forall i :: 0 <= i < |Split(sep, s)| ==> sep !in Split(sep, s)[i]
  {
    if s != [] {
      SplitFieldsHaveNoSep(sep, s[1..]);
      var rest := Split(sep, s[1..]);
      if s[0] != sep {
        assert sep !in [s[0]] + rest[0];
      }
    }
  }

  /** Join peels off its last field. */
  lemma {:induction false} JoinSnoc(sep: char, parts: seq<string>)
    requires |parts| >= 2
    ensures Join(sep, parts) == Join(sep, parts[..|parts| - 1]) + [sep] + parts[|parts| - 1]
  {
    if |parts| > 2 {
      JoinSnoc(sep, parts[1..]);
      assert parts[1..][..|parts| - 2] == parts[..|parts| - 1][1..];
    }
  }

  /** Each line followed by a newline, as a sequence of `write(line + "\n")` calls produces. */
  function Lines(ls: seq<string>): string
  {
    if ls == [] then "" else ls[0] + "\n" + Lines(ls[1..])
  }

  lemma ConsAppend<T>(a: seq<T>, b: seq<T>)
    requires a != []
    ensures [a[0]] + (a[1..] + b) == a + b
  {
    assert [a[0]] + a[1..] == a;
  }

  /**
   * Newline-terminated lines read back: splitting them, followed by any
   * further text, on newlines gives the lines, then the fields of the rest.
   */
  lemma {:induction false} SplitLines(ls: seq<string>, rest: string)
    requires forall i :: 0 <= i < |ls| ==> '\n' !in ls[i]
    ensures Split('\n', Lines(ls) + rest) == ls + Split('\n', rest)
  {
    if ls == [] {
      assert Lines(ls) + rest == rest;
    } else {
      var tail := Lines(ls[1..]) + rest;
      SplitLines(ls[1..], rest);
      assert Lines(ls) == ls[0] + ['\n'] + Lines(ls[1..]);
      assert Lines(ls) + rest == ls[0] + ['\n'] + tail;
      SplitAppend('\n', ls[0], tail);
      SplitNoSep('\n', ls[0]);
      ConsAppend(ls, Split('\n', rest));
    }
  }

  lemma {:induction false} JoinNoSep(sep: char, c: char, parts: seq<string>)
    requires c != sep
    requires forall i :: 0 <= i < |parts| ==> c !in parts[i]
    ensures c !in Join(sep, parts)
  {
    if |parts| > 1 {
      JoinNoSep(sep, c, parts[1..]);
    }
  }

  // ---------------------------------------------------------------------------
  // Decimal numerals: `str(n)` for n >= 0

  function DigitChar(d: nat): (c: char)
    requires d < 10
    ensures '0' <= c <= '9'
  {
    "0123456789"[d]
  }

  function DigitValue(c: char): nat
  {
    if '0' <= c <= '9' then (c - '0') as nat else 0
  }

  predicate IsDigits(s: string)
  {
    forall i :: 0 <= i < |s| ==> '0' <= s[i] <= '9'
  }

  /** `str(n)`: the shortest decimal numeral of n. */
  function NatToString(n: nat): (s: string)
    ensures |s| >= 1 && IsDigits(s)
    ensures |s| > 1 ==> s[0] != '0'
  {
    if n < 10 then [DigitChar(n)] else NatToString(n / 10) + [DigitChar(n % 10)]
  }

  /** The last `width` decimal digits of n, padded with leading zeros. */
  function PaddedDigits(n: nat, width: nat): (s: string)
    ensures |s| == width && IsDigits(s)
  {
    if width == 0 then "" else PaddedDigits(n / 10, width - 1) + [DigitChar(n % 10)]
  }

  /** Reads a string of decimal digits back as a number. */
  function ParseNat(s: string): nat
  {
    if s == [] then 0 else ParseNat(s[..|s| - 1]) * 10 + DigitValue(s[|s| - 1])
  }

  lemma DigitRoundTrip(d: nat)
    requires d < 10
    ensures DigitValue(DigitChar(d)) == d
  {
    var ds := "0123456789";
    assert ds[0] == '0' && ds[1] == '1' && ds[2] == '2' && ds[3] == '3' && ds[4] == '4';
    assert ds[5] == '5' && ds[6] == '6' && ds[7] == '7' && ds[8] == '8' && ds[9] == '9';
  }

  /** Round trip of `str(n)`: the numeral reads back as n. */
  lemma {:induction false} ParseNatToString(n: nat)
    ensures ParseNat(NatToString(n)) == n
  {
    DigitRoundTrip(n % 10);
    if n >= 10 {
      var s := NatToString(n / 10) + [DigitChar(n % 10)];
      assert s[..|s| - 1] == NatToString(n / 10);
      ParseNatToString(n / 10);
    } else {
      var s := [DigitChar(n)];
      assert s[..0] == [];
    }
  }

  /** Round trip of the padded numeral, for a number that fits the width. */
  lemma {:induction false} ParsePaddedDigits(n: nat, width: nat, bound: nat)
    requires bound == Pow10(width) && n < bound
    ensures ParseNat(PaddedDigits(n, width)) == n
  {
    if width > 0 {
      var s := PaddedDigits(n, width);
      assert s[..|s| - 1] == PaddedDigits(n / 10, width - 1);
      DigitRoundTrip(n % 10);
      ParsePaddedDigits(n / 10, width - 1, Pow10(width - 1));
    }
  }

  function Pow10(k: nat): (p: nat)
    ensures p >= 1
  {
    if k == 0 then 1 else 10 * Pow10(k - 1)
  }

  // ---------------------------------------------------------------------------
  // `s.replace(pat, rep)`: every non-overlapping occurrence, left to right

  predicate StartsWith(s: string, pat: string)
  {
    |pat| <= |s| && s[..|pat|] == pat
  }

  /** Whether `pat` occurs anywhere in `s`. */
  predicate Occurs(pat: string, s: string)
  {
    exists i :: 0 <= i <= |s| - |pat| && StartsWith(s[i..], pat)
  }

  function ReplaceAll(s: string, pat: string, rep: string): string
    requires |pat| > 0
    decreases |s|
  {
    if |s| < |pat| then s
    else if StartsWith(s, pat) then rep + ReplaceAll(s[|pat|..], pat, rep)
    else [s[0]] + ReplaceAll(s[1..], pat, rep)
  }

  /** A string without the pattern is left alone by `replace`. */
  lemma {:induction false} ReplaceAllAbsent(s: string, pat: string, rep: string)
    requires |pat| > 0 && !Occurs(pat, s)
    ensures ReplaceAll(s, pat, rep) == s
  {
    if |s| >= |pat| {
      assert s[0..] == s;
      assert !StartsWith(s, pat);
      assert !Occurs(pat, s[1..]) by {
        forall i | 0 <= i <= |s[1..]| - |pat|
          ensures !StartsWith(s[1..][i..], pat)
        {
          assert s[1..][i..] == s[i + 1..];
        }
      }
      ReplaceAllAbsent(s[1..], pat, rep);
      assert [s[0]] + s[1..] == s;
    }
  }
}
