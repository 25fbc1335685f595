/** Text helpers: splitting at a separator and decimal numbers. */
module Text {

  /** `s.split(sep)`. */
  function Split(s: string, sep: char): (parts: seq<string>)
    ensures |parts| >= 1
  {
    if s == "" then [""] else Grow(s[0], Split(s[1..], sep), sep)
  }

  /** The parts of a text once c is put in front of it. */
  function Grow(c: char, parts: seq<string>, sep: char): (grown: seq<string>)
    requires |parts| >= 1
    ensures |grown| >= 1
  {
    if c == sep then [""] + parts else [[c] + parts[0]] + parts[1..]
  }

  /** `sep.join(parts)`. */
  function Join(parts: seq<string>, sep: char): (s: string)
    requires |parts| >= 1
  {
    if |parts| == 1 then parts[0] else parts[0] + [sep] + Join(parts[1..], sep)
  }

  lemma {:induction false} JoinSplit(s: string, sep: char)
    ensures Join(Split(s, sep), sep) == s
  {
    if s != "" {
      JoinSplit(s[1..], sep);
      var rest := Split(s[1..], sep);
      assert s == [s[0]] + s[1..];
      assert Grow(s[0], rest, sep)[1..] == if s[0] == sep then rest else rest[1..];
    }
  }

  lemma {:induction false} SplitNothing(s: string, sep: char)
    requires sep !in s
    ensures Split(s, sep) == [s]
  {
    if s != "" {
      assert sep !in s[1..];
      SplitNothing(s[1..], sep);
      assert s == [s[0]] + s[1..];
    }
  }

  lemma SplitCons(c: char, s: string, sep: char)
    ensures Split([c] + s, sep) == Grow(c, Split(s, sep), sep)
  {
    assert ([c] + s)[1..] == s;
  }

  lemma GrowFront(c: char, left: seq<string>, right: seq<string>, sep: char)
    requires |left| >= 1
    ensures Grow(c, left + right, sep) == Grow(c, left, sep) + right
  {
    assert (left + right)[0] == left[0] && (left + right)[1..] == left[1..] + right;
  }

  /** Splitting text with a separator in the middle splits each side. */
  lemma {:induction false} SplitAround(a: string, b: string, sep: char)
    ensures Split(a + [sep] + b, sep) == Split(a, sep) + Split(b, sep)
  {
    var right := Split(b, sep);
    if a == "" {
      assert a + [sep] + b == [sep] + b;
      SplitCons(sep, b, sep);
    } else {
      hide Grow;
      var front, tail := a[1..], a[1..] + [sep] + b;
      assert a + [sep] + b == [a[0]] + tail && a == [a[0]] + front;
      SplitAround(front, b, sep);
      SplitCons(a[0], tail, sep);
      SplitCons(a[0], front, sep);
      hide Split;
      GrowFront(a[0], Split(front, sep), right, sep);
    }
  }

  predicate AllDigits(s: string) {
    s != "" && forall i :: 0 <= i < |s| ==> '0' <= s[i] <= '9'
  }

  function Decimal(s: string): (n: nat)
    requires forall i :: 0 <= i < |s| ==> '0' <= s[i] <= '9'
  {
    if s == "" then 0 else 10 * Decimal(s[..|s| - 1]) + (s[|s| - 1] as int - '0' as int)
  }

  /** `str(n)`. */
  function Show(n: nat): (s: string)
    ensures AllDigits(s)
  {
    var digit := ('0' as int + n % 10) as char;
    if n < 10 then [digit] else Show(n / 10) + [digit]
  }

  lemma {:induction false} DecimalShow(n: nat)
    ensures Decimal(Show(n)) == n
  {
    var digit := ('0' as int + n % 10) as char;
    if n >= 10 {
      DecimalShow(n / 10);
      assert (Show(n / 10) + [digit])[..|Show(n / 10)|] == Show(n / 10);
    } else {
      assert [digit][..0] == "";
    }
  }

  lemma ShowHasNoUnderscore(n: nat)
    ensures Split(Show(n), '_') == [Show(n)]
  {
    SplitNothing(Show(n), '_');
  }

  lemma SplitInjective(s: string, t: string, sep: char)
    requires Split(s, sep) == Split(t, sep)
    ensures s == t
  {
    JoinSplit(s, sep);
    JoinSplit(t, sep);
  }

  lemma ShowInjective(n: nat, m: nat)
    requires Show(n) == Show(m)
    ensures n == m
  {
    DecimalShow(n);
    DecimalShow(m);
  }

  /** `c.lower()` of an ASCII character. */
  function LowerChar(c: char): (l: char)
    ensures !('A' <= l <= 'Z')
  {
    if 'A' <= c <= 'Z' then ((c as int) + 32) as char else c
  }

  function Lower(s: string): (t: string)
    ensures |t| == |s|
  {
    seq(|s|, i requires 0 <= i < |s| => LowerChar(s[i]))
  }

  /** Text without capital letters is its own lower case. */
  lemma LowerIdle(s: string)
    requires forall i :: 0 <= i < |s| ==> !('A' <= s[i] <= 'Z')
    ensures Lower(s) == s
  {
  }
}
