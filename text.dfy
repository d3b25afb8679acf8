/** The JavaScript string primitives the renderer relies on: `repeat`,
    `padStart`/`padEnd`, number-to-string conversion, `toFixed(2)` and
    `Array.prototype.join`, with the inverse operations used to state what
    the rendered text carries. */
module Text {
  import opened Common

  /** `c.repeat(n)` for a one-character string `c`. */
  function Repeat(c: char, n: nat): (r: string)
    ensures |r| == n
    ensures forall i :: 0 <= i < n ==> r[i] == c
  {
    if n == 0 then [] else [c] + Repeat(c, n - 1)
  }

  function Spaces(n: nat): string {
    Repeat(' ', n)
  }

  /** `s.padEnd(width)`: `s` followed by spaces up to `width` characters; never truncates. */
  function PadEnd(s: string, width: int): (r: string)
    ensures |r| == Max(|s|, width)
    ensures r[..|s|] == s
    ensures forall i :: |s| <= i < |r| ==> r[i] == ' '
  {
    if |s| >= width then s else s + Spaces(width - |s|)
  }

  /** `s.padStart(width)`: spaces then `s`, up to `width` characters; never truncates. */
  function PadStart(s: string, width: int): (r: string)
    ensures |r| == Max(|s|, width)
    ensures r[|r| - |s|..] == s
    ensures forall i :: 0 <= i < |r| - |s| ==> r[i] == ' '
  {
    if |s| >= width then s else Spaces(width - |s|) + s
  }

  predicate IsDigit(c: char) {
    '0' <= c <= '9'
  }

  predicate AllDigits(s: string) {
    forall i :: 0 <= i < |s| ==> IsDigit(s[i])
  }

  function DigitChar(d: nat): (c: char)
    requires d < 10
    ensures IsDigit(c)
  {
    ('0' as int + d) as char
  }

  function DigitValue(c: char): (d: nat)
    requires IsDigit(c)
    ensures d < 10
  {
    (c as int - '0' as int) as nat
  }

  /** The decimal numeral JavaScript prints for a non-negative integer. */
  function NatToString(n: nat): (r: string)
    ensures |r| >= 1 && AllDigits(r)
    ensures r[0] == '0' <==> n == 0
    decreases n
  {
    if n < 10 then [DigitChar(n)] else NatToString(n / 10) + [DigitChar(n % 10)]
  }

  /** The value of a non-empty decimal numeral. */
  function ParseNat(s: string): nat
    requires |s| >= 1 && AllDigits(s)
    decreases |s|
  {
    if |s| == 1 then DigitValue(s[0])
    else ParseNat(s[..|s| - 1]) * 10 + DigitValue(s[|s| - 1])
  }

  /** Reading back a printed numeral gives the number that was printed. */
  lemma {:induction false} ParseNatToString(n: nat)
    ensures ParseNat(NatToString(n)) == n
    decreases n
  {
    var s := NatToString(n);
    if n >= 10 {
      ParseNatToString(n / 10);
      assert s[..|s| - 1] == NatToString(n / 10);
    }
  }

  /** A numeral without a leading zero has a positive value. */
  lemma {:induction false} ParseNatLeading(s: string)
    requires |s| >= 1 && AllDigits(s) && s[0] != '0'
    ensures ParseNat(s) > 0
    decreases |s|
  {
    if |s| > 1 {
      assert s[..|s| - 1][0] == s[0];
      ParseNatLeading(s[..|s| - 1]);
    }
  }

  /** The decimal numeral JavaScript prints for an integer (`${i}`): a minus
      sign exactly for a negative number, then the digits of its magnitude,
      which read back as that magnitude and have no leading zero. */
  function IntToString(i: int): (r: string)
    ensures |r| >= 1 && (r[0] == '-' <==> i < 0)
    ensures i >= 0 ==> AllDigits(r) && ParseNat(r) == i && (r[0] == '0' <==> i == 0)
    ensures i < 0 ==> |r| >= 2 && AllDigits(r[1..]) && ParseNat(r[1..]) == -i && r[1] != '0'
  {
    if i < 0 then
      ParseNatToString(-i);
      assert ("-" + NatToString(-i))[1..] == NatToString(-i);
      "-" + NatToString(-i)
    else
      ParseNatToString(i);
      NatToString(i)
  }

  /** Numbers below 1000 print in at most three characters. */
  lemma NatToStringShort(n: nat)
    requires n < 1000
    ensures |NatToString(n)| <= 3
  {
    if n >= 10 {
      assert |NatToString(n / 10)| <= 2 by {
        if n / 10 >= 10 {
          assert |NatToString(n / 100)| == 1;
        }
      }
    }
  }

  /** Two decimal digits, with a leading zero: the fraction part of `toFixed(2)`. */
  function TwoDigits(n: nat): (r: string)
    requires n < 100
    ensures |r| == 2 && AllDigits(r)
  {
    [DigitChar(n / 10), DigitChar(n % 10)]
  }

  /** `x.toFixed(2)` on the exact value `x`: the nearest multiple of 0.01, a tie
      going to the larger magnitude, printed with two decimals; a negative `x`
      prints as "-" and the digits of `-x` (so a tiny negative prints "-0.00"). */
  function ToFixed2(x: real): (r: string)
    ensures |r| >= 4 && r[|r| - 3] == '.' && AllDigits(r[|r| - 2..])
    ensures r[0] == '-' <==> x < 0.0
  {
    if x < 0.0 then "-" + FixedNonNegative(-x) else FixedNonNegative(x)
  }

  function FixedNonNegative(x: real): (r: string)
    requires x >= 0.0
    ensures |r| >= 4 && IsDigit(r[0]) && r[|r| - 3] == '.' && AllDigits(r[|r| - 2..])
  {
    var hundredths := (x * 100.0 + 0.5).Floor;
    NatToString(hundredths / 100) + "." + TwoDigits(hundredths % 100)
  }

  /** An amount held in whole cents prints as its dollars, a point and its two cent digits. */
  lemma ToFixed2Cents(cents: nat)
    ensures ToFixed2(cents as real / 100.0)
         == NatToString(cents / 100) + "." + TwoDigits(cents % 100)
  {
    var x := cents as real / 100.0;
    assert x * 100.0 + 0.5 == cents as real + 0.5;
    assert (x * 100.0 + 0.5).Floor == cents;
  }

  /** `words.join(sep)`: empty for no words; otherwise it starts with the
      first word, and is exactly that word when there is only one. */
  function Join(words: seq<string>, sep: string): (r: string)
    ensures |words| == 0 ==> r == ""
    ensures |words| >= 1 ==> |r| >= |words[0]| && r[..|words[0]|] == words[0]
    ensures |words| == 1 ==> r == words[0]
    decreases |words|
  {
    if |words| == 0 then ""
    else if |words| == 1 then words[0]
    else words[0] + sep + Join(words[1..], sep)
  }

  /** `s.split(sep)` for a one-character separator: the maximal runs between separators. */
  function SplitOn(s: string, sep: char): (r: seq<string>)
    ensures |r| >= 1
    decreases |s|
  {
    if |s| == 0 then [""]
    else
      var rest := SplitOn(s[1..], sep);
      if s[0] == sep then [""] + rest else [[s[0]] + rest[0]] + rest[1..]
  }

  lemma {:induction false} SplitOnWord(w: string, sep: char)
    requires sep !in w
    ensures SplitOn(w, sep) == [w]
    decreases |w|
  {
    if w != [] {
      SplitOnWord(w[1..], sep);
      assert [w[0]] + w[1..] == w;
    }
  }

  lemma {:induction false} SplitOnWordThen(w: string, sep: char, t: string)
    requires sep !in w
    ensures SplitOn(w + [sep] + t, sep) == [w] + SplitOn(t, sep)
    decreases |w|
  {
    var s := w + [sep] + t;
    if w == [] {
      assert s[1..] == t;
    } else {
      assert s[1..] == w[1..] + [sep] + t;
      SplitOnWordThen(w[1..], sep, t);
      assert [w[0]] + w[1..] == w;
    }
  }

  /** Splitting a join of separator-free words recovers the words. */
  lemma {:induction false} SplitJoin(words: seq<string>, sep: char)
    requires |words| >= 1
    requires forall i :: 0 <= i < |words| ==> sep !in words[i]
    ensures SplitOn(Join(words, [sep]), sep) == words
    decreases |words|
  {
    if |words| == 1 {
      SplitOnWord(words[0], sep);
    } else {
      SplitJoin(words[1..], sep);
      SplitOnWordThen(words[0], sep, Join(words[1..], [sep]));
      assert [words[0]] + words[1..] == words;
    }
  }
}
