/** Binary strings as the bus code builds and reads them: `format(n, '0<w>b')` and `int(s, 2)`. */
module Binary {

  predicate IsBit(c: char) {
    c == '0' || c == '1'
  }

  predicate AllBits(s: string) {
    forall i :: 0 <= i < |s| ==> IsBit(s[i])
  }

  function Digit(n: nat): (c: char)
    requires n < 2
  {
    if n == 0 then '0' else '1'
  }

  function Zeros(n: nat): (s: string)
    ensures |s| == n && AllBits(s)
  {
    seq(n, _ => '0')
  }

  function Pow2(k: nat): (p: nat)
    ensures p >= 1
  {
    if k == 0 then 1 else 2 * Pow2(k - 1)
  }

  /** `format(n, '0<width>b')`: padded to `width`, and longer when n needs more digits. */
  function Format(n: nat, width: nat): (s: string)
    ensures |s| >= 1 && |s| >= width && AllBits(s)
  {
    if n < 2 then Zeros(if width == 0 then 0 else width - 1) + [Digit(n)]
    else Format(n / 2, if width == 0 then 0 else width - 1) + [Digit(n % 2)]
  }

  /** `int(s, 2)` on a string of binary digits. */
  function Parse(s: string): (n: nat)
    requires AllBits(s)
  {
    if |s| == 0 then 0
    else 2 * Parse(s[..|s| - 1]) + (if s[|s| - 1] == '1' then 1 else 0)
  }

  /** The number of '1' characters, `s.count('1')`. */
  function Ones(s: string): (n: nat)
    ensures n <= |s|
  {
    if |s| == 0 then 0 else Ones(s[..|s| - 1]) + (if s[|s| - 1] == '1' then 1 else 0)
  }

  lemma {:induction false} OnesConcat(s: string, t: string)
    ensures Ones(s + t) == Ones(s) + Ones(t)
  {
    if |t| == 0 {
      assert s + t == s;
    } else {
      assert (s + t)[..|s + t| - 1] == s + t[..|t| - 1];
      OnesConcat(s, t[..|t| - 1]);
    }
  }

  lemma {:induction false} ParseZeros(n: nat)
    ensures Parse(Zeros(n)) == 0
  {
    if n > 0 {
      assert Zeros(n)[..n - 1] == Zeros(n - 1);
      ParseZeros(n - 1);
    }
  }

  lemma ParseAppend(front: string, bit: nat)
    requires AllBits(front) && bit < 2
    ensures Parse(front + [Digit(bit)]) == 2 * Parse(front) + bit
  {
    assert (front + [Digit(bit)])[..|front|] == front;
  }

  /** Printing then reading gives the number back, whatever the width. */
  lemma {:induction false} ParseFormat(n: nat, width: nat)
    ensures Parse(Format(n, width)) == n
  {
    var w := if width == 0 then 0 else width - 1;
    if n < 2 {
      ParseAppend(Zeros(w), n);
      ParseZeros(w);
    } else {
      ParseFormat(n / 2, w);
      ParseAppend(Format(n / 2, w), n % 2);
    }
  }

  lemma {:induction false} ParseBound(s: string)
    requires AllBits(s)
    ensures Parse(s) < Pow2(|s|)
  {
    if |s| > 0 {
      ParseBound(s[..|s| - 1]);
    }
  }

  /** The text has exactly the requested width when, and only when, the number fits in it. */
  lemma {:induction false} FormatWidth(n: nat, width: nat)
    requires width >= 1
    ensures |Format(n, width)| == width <==> n < Pow2(width)
  {
    if n >= 2 {
      if width == 1 {
        assert Pow2(1) == 2;
      } else {
        FormatWidth(n / 2, width - 1);
      }
    } else {
      assert Pow2(width) == 2 * Pow2(width - 1);
    }
  }

  /** Reading then printing at the same width gives the text back. */
  lemma {:induction false} FormatParse(s: string)
    requires AllBits(s) && |s| >= 1
    ensures Format(Parse(s), |s|) == s
  {
    var front := s[..|s| - 1];
    if |s| == 1 {
      assert Parse(front) == 0;
      assert Format(Parse(s), 1) == s;
    } else {
      FormatParse(front);
      assert s == front + [s[|s| - 1]];
      if Parse(s) < 2 {
        assert Parse(front) == 0;
        FormatZero(|s| - 1);
      }
    }
  }

  lemma FormatZero(width: nat)
    requires width >= 1
    ensures Format(0, width) == Zeros(width)
  {
    assert Zeros(width - 1) + ['0'] == Zeros(width);
  }

  lemma {:induction false} Pow2Sum(a: nat, b: nat)
    ensures Pow2(a + b) == Pow2(a) * Pow2(b)
  {
    if a > 0 {
      Pow2Sum(a - 1, b);
      assert Pow2(a + b) == 2 * Pow2(a + b - 1);
    }
  }

  lemma {:induction false} Pow2Grows(a: nat, b: nat)
    requires a <= b
    ensures Pow2(a) <= Pow2(b)
    decreases b
  {
    if a < b {
      Pow2Grows(a, b - 1);
    }
  }
}
