/** Bitwise operators on unbounded two's-complement integers, defined bit by bit from the low end. */
module PythonInts {
  import opened Binary

  /** Bit i of n; a negative number has ones all the way up. */
  predicate Bit(n: int, i: nat)
    decreases i
  {
    if i == 0 then n % 2 == 1 else Bit(n / 2, i - 1)
  }

  function Magnitude(n: int): nat {
    if n < 0 then -n else n
  }

  function And(a: int, b: int): (c: int)
    decreases Magnitude(a) + Magnitude(b)
  {
    if a == 0 || b == 0 then 0
    else if a == -1 then b
    else if b == -1 then a
    else 2 * And(a / 2, b / 2) + (a % 2) * (b % 2)
  }

  function Not(a: int): (c: int)
  {
    -1 - a
  }

  function Or(a: int, b: int): (c: int)
  {
    Not(And(Not(a), Not(b)))
  }

  function Shl(a: int, k: nat): (c: int)
  {
    a * Pow2(k)
  }

  function Shr(a: int, k: nat): (c: int)
  {
    a / Pow2(k)
  }

  lemma {:induction false} BitNot(a: int, i: nat)
    ensures Bit(Not(a), i) == !Bit(a, i)
    decreases i
  {
    if i > 0 {
      assert Not(a) / 2 == Not(a / 2);
      BitNot(a / 2, i - 1);
    }
  }

  lemma {:induction false} BitConst(i: nat)
    ensures !Bit(0, i) && Bit(-1, i)
  {
    if i > 0 {
      BitConst(i - 1);
    }
  }

  lemma {:induction false} BitAnd(a: int, b: int, i: nat)
    ensures Bit(And(a, b), i) == (Bit(a, i) && Bit(b, i))
    decreases i
  {
    BitConst(i);
    if a != 0 && b != 0 && a != -1 && b != -1 {
      var c := And(a, b);
      assert c / 2 == And(a / 2, b / 2) && c % 2 == (a % 2) * (b % 2);
      if i > 0 {
        BitAnd(a / 2, b / 2, i - 1);
      }
    }
  }

  lemma BitOr(a: int, b: int, i: nat)
    ensures Bit(Or(a, b), i) == (Bit(a, i) || Bit(b, i))
  {
    BitNot(a, i);
    BitNot(b, i);
    BitAnd(Not(a), Not(b), i);
    BitNot(And(Not(a), Not(b)), i);
  }

  lemma {:induction false} BitShl(a: int, k: nat, i: nat)
    ensures Bit(Shl(a, k), i) == (i >= k && Bit(a, i - k))
    decreases k
  {
    if k > 0 {
      assert Shl(a, k) == 2 * Shl(a, k - 1);
      if i > 0 {
        BitShl(a, k - 1, i - 1);
      }
    }
  }

  lemma {:induction false} BitShr(a: int, k: nat, i: nat)
    ensures Bit(Shr(a, k), i) == Bit(a, i + k)
    decreases k
  {
    if k > 0 {
      HalveFirst(a, Pow2(k - 1));
      BitShr(a / 2, k - 1, i);
    }
  }

  lemma HalveFirst(a: int, m: nat)
    requires m >= 1
    ensures a / (2 * m) == (a / 2) / m
  {
    var q, r := a / (2 * m), a % (2 * m);
    assert a == 2 * m * q + r && 0 <= r < 2 * m;
    assert a / 2 == m * q + r / 2 by {
      assert a == 2 * (m * q + r / 2) + r % 2;
    }
    DivUnique(a / 2, m, q, r / 2);
  }

  lemma DivUnique(n: int, m: nat, q: int, r: int)
    requires m >= 1 && n == m * q + r && 0 <= r < m
    ensures n / m == q
  {
    var d := n / m;
    var e := d - q;
    assert n == m * d + n % m;
    assert m * e == m * d - m * q;
    MultipleBound(m, e);
  }

  lemma MultipleBound(m: int, e: int)
    requires m >= 1
    ensures e >= 1 ==> m * e >= m
    ensures e <= -1 ==> m * e <= -m
  {
    assert m * e == m * (e - 1) + m && m * e == m * (e + 1) - m;
  }

  lemma {:induction false} BitPow2(k: nat, i: nat)
    ensures Bit(Pow2(k), i) <==> i == k
    decreases k
  {
    if k == 0 {
      if i > 0 {
        BitConst(i - 1);
      }
    } else if i > 0 {
      BitPow2(k - 1, i - 1);
    }
  }

  /** Two integers with the same bits are equal. */
  lemma {:induction false} SameBits(a: int, b: int)
    requires forall i: nat :: Bit(a, i) == Bit(b, i)
    ensures a == b
    decreases Magnitude(a) + Magnitude(b)
  {
    assert Bit(a, 0) == Bit(b, 0);
    if !(a == 0 || a == -1) || !(b == 0 || b == -1) {
      forall i: nat ensures Bit(a / 2, i) == Bit(b / 2, i) {
        assert Bit(a, i + 1) == Bit(b, i + 1);
      }
      SameBits(a / 2, b / 2);
    }
  }

  lemma {:induction false} NoHighBits(n: int, k: nat, i: nat)
    requires 0 <= n < Pow2(k) && i >= k
    ensures !Bit(n, i)
    decreases k
  {
    if k == 0 {
      BitConst(i);
    } else {
      NoHighBits(n / 2, k - 1, i - 1);
    }
  }

  ghost predicate NoBitsFrom(n: int, k: nat) {
    forall i: nat :: i >= k ==> !Bit(n, i)
  }

  lemma {:induction false} HighBitsBound(n: int, k: nat)
    requires NoBitsFrom(n, k)
    ensures 0 <= n < Pow2(k)
    decreases k
  {
    if k == 0 {
      forall i: nat ensures Bit(n, i) == Bit(0, i) {
        BitConst(i);
      }
      SameBits(n, 0);
    } else {
      forall i: nat | i >= k - 1 ensures !Bit(n / 2, i) {
        assert !Bit(n, i + 1);
      }
      HighBitsBound(n / 2, k - 1);
    }
  }

  /** A number fits in k bits exactly when it has no one bit from k on. */
  lemma FitsBits(n: int, k: nat)
    ensures 0 <= n < Pow2(k) <==> NoBitsFrom(n, k)
  {
    if 0 <= n < Pow2(k) {
      forall i: nat | i >= k ensures !Bit(n, i) {
        NoHighBits(n, k, i);
      }
    } else if NoBitsFrom(n, k) {
      HighBitsBound(n, k);
    }
  }

  lemma {:induction false} BitSum(a: int, b: nat, k: nat, i: nat)
    requires b < Pow2(k)
    ensures Bit(a * Pow2(k) + b, i) == if i < k then Bit(b, i) else Bit(a, i - k)
    decreases k
  {
    if k > 0 {
      assert a * Pow2(k) == 2 * (a * Pow2(k - 1));
      assert (a * Pow2(k) + b) / 2 == a * Pow2(k - 1) + b / 2;
      if i > 0 {
        BitSum(a, b / 2, k - 1, i - 1);
      }
    }
  }

  /** A shifted number or-ed with one that fits below the shift is their sum. */
  lemma OrIsSum(a: int, b: nat, k: nat)
    requires b < Pow2(k)
    ensures Or(Shl(a, k), b) == a * Pow2(k) + b
  {
    forall i: nat ensures Bit(Or(Shl(a, k), b), i) == Bit(a * Pow2(k) + b, i) {
      BitOr(Shl(a, k), b, i);
      BitShl(a, k, i);
      BitSum(a, b, k, i);
      if i >= k {
        NoHighBits(b, k, i);
      }
    }
    SameBits(Or(Shl(a, k), b), a * Pow2(k) + b);
  }

  lemma {:induction false} BitLowMask(k: nat, i: nat)
    ensures Bit(Pow2(k) - 1, i) <==> i < k
    decreases k
  {
    if k == 0 {
      BitConst(i);
    } else {
      assert (Pow2(k) - 1) / 2 == Pow2(k - 1) - 1;
      if i > 0 {
        BitLowMask(k - 1, i - 1);
      }
    }
  }

  /** Masking with k ones is the remainder modulo 2^k, for negative numbers too. */
  lemma AndIsRemainder(a: int, k: nat)
    ensures And(a, Pow2(k) - 1) == a % Pow2(k)
  {
    var q, r := a / Pow2(k), a % Pow2(k);
    assert a == q * Pow2(k) + r;
    forall i: nat ensures Bit(And(a, Pow2(k) - 1), i) == Bit(r, i) {
      BitAnd(a, Pow2(k) - 1, i);
      BitLowMask(k, i);
      BitSum(q, r, k, i);
      if i >= k {
        NoHighBits(r, k, i);
      }
    }
    SameBits(And(a, Pow2(k) - 1), r);
  }
}
