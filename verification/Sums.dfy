/** Sums over sequences of integers. */
module Sums {

  function Sum(s: seq<int>): int {
    if s == [] then 0 else Sum(s[..|s| - 1]) + s[|s| - 1]
  }

  lemma SumSnoc(s: seq<int>, x: int)
    ensures Sum(s + [x]) == Sum(s) + x
  {
    assert (s + [x])[..|s|] == s;
  }

  lemma {:induction false} SumConcat(a: seq<int>, b: seq<int>)
    ensures Sum(a + b) == Sum(a) + Sum(b)
  {
    if b == [] {
      assert a + b == a;
    } else {
      var shorter := b[..|b| - 1];
      SumConcat(a, shorter);
      assert a + b == (a + shorter) + [b[|b| - 1]];
      SumSnoc(a + shorter, b[|b| - 1]);
    }
  }

  lemma {:induction false} SumAtMost(s: seq<int>, bound: int)
    requires forall i | 0 <= i < |s| :: s[i] <= bound
    ensures Sum(s) <= bound * |s|
  {
    if s != [] {
      SumAtMost(s[..|s| - 1], bound);
      assert bound * |s| == bound * (|s| - 1) + bound;
    }
  }

  lemma {:induction false} SumAtLeast(s: seq<int>, bound: int)
    requires forall i | 0 <= i < |s| :: s[i] >= bound
    ensures Sum(s) >= bound * |s|
  {
    if s != [] {
      SumAtLeast(s[..|s| - 1], bound);
      assert bound * |s| == bound * (|s| - 1) + bound;
    }
  }

  lemma SumSplit(s: seq<int>, k: nat)
    requires k <= |s|
    ensures Sum(s) == Sum(s[..k]) + Sum(s[k..])
  {
    SumConcat(s[..k], s[k..]);
    assert s == s[..k] + s[k..];
  }

  lemma {:induction false} SumMonotone(a: seq<int>, b: seq<int>)
    requires |a| == |b| && forall i | 0 <= i < |a| :: a[i] <= b[i]
    ensures Sum(a) <= Sum(b)
  {
    if a != [] {
      SumMonotone(a[..|a| - 1], b[..|b| - 1]);
    }
  }
}
