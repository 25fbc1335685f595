/** Removing a value from a list, and the least element of a set of numbers. */
module Collections {

  /** s without its first element equal to x. */
  function Without<T(==)>(s: seq<T>, x: T): (r: seq<T>)
    ensures x in s ==> |r| == |s| - 1
    ensures x !in s ==> r == s
  {
    if s == [] then [] else if s[0] == x then s[1..] else [s[0]] + Without(s[1..], x)
  }

  lemma {:induction false} WithoutAt<T>(s: seq<T>, x: T, k: nat)
    requires k < |s| && s[k] == x && x !in s[..k]
    ensures Without(s, x) == s[..k] + s[k + 1..]
  {
    if k > 0 {
      assert s[0] in s[..k];
      assert s[1..][..k - 1] == s[..k][1..];
      WithoutAt(s[1..], x, k - 1);
    }
  }

  /** Removing a value removes one occurrence of it and nothing else. */
  lemma {:induction false} WithoutCounts<T>(s: seq<T>, x: T)
    ensures multiset(Without(s, x)) == multiset(s) - multiset{x}
  {
    if s != [] {
      assert s == [s[0]] + s[1..];
      if s[0] != x {
        WithoutCounts(s[1..], x);
      }
    }
  }

  /** The least element of a set of numbers. */
  lemma {:induction false} Least(ks: set<nat>) returns (low: nat)
    requires ks != {}
    ensures low in ks && forall k :: k in ks ==> low <= k
  {
    low :| low in ks;
    if ks != {low} {
      var rest := Least(ks - {low});
      assert forall k :: k in ks ==> k in ks - {low} || k == low;
      low := if rest < low then rest else low;
    }
  }
}
