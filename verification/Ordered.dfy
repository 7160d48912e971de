/** The iteration order of a BTreeMap keyed by strings. */
module Ordered {

  predicate Less(a: string, b: string) {
    if b == [] then false
    else if a == [] then true
    else if a[0] != b[0] then a[0] < b[0]
    else Less(a[1..], b[1..])
  }

  lemma {:induction false} Trichotomy(a: string, b: string)
    ensures a == b || Less(a, b) || Less(b, a)
    ensures !(Less(a, b) && Less(b, a)) && !Less(a, a)
  {
    if a != [] && b != [] {
      Trichotomy(a[1..], b[1..]);
      if a[0] == b[0] && a[1..] == b[1..] {
        assert a == [a[0]] + a[1..] && b == [b[0]] + b[1..];
      }
    }
    if a != [] {
      Trichotomy(a[1..], a[1..]);
    }
  }

  lemma {:induction false} Transitive(a: string, b: string, c: string)
    requires Less(a, b) && Less(b, c)
    ensures Less(a, c)
  {
    if a != [] && a[0] == b[0] == c[0] {
      Transitive(a[1..], b[1..], c[1..]);
    }
  }

  // What makes one key come before another: it is a proper first part of it, or smaller in the first
  // character they do not share.
  predicate ComesBefore(a: string, b: string, k: int) {
    && 0 <= k <= |a| && k < |b| && a[..k] == b[..k]
    && (k == |a| || a[k] < b[k])
  }

  lemma {:induction false} LessExactly(a: string, b: string)
    ensures Less(a, b) <==> exists k :: ComesBefore(a, b, k)
  {
    if a != [] && b != [] && a[0] == b[0] {
      LessExactly(a[1..], b[1..]);
      if Less(a, b) {
        var k :| ComesBefore(a[1..], b[1..], k);
        assert a[..k + 1] == [a[0]] + a[1..][..k] && b[..k + 1] == [b[0]] + b[1..][..k];
        assert ComesBefore(a, b, k + 1);
      }
      if k :| ComesBefore(a, b, k) {
        assert k > 0;
        assert a[1..][..k - 1] == a[..k][1..] && b[1..][..k - 1] == b[..k][1..];
        assert ComesBefore(a[1..], b[1..], k - 1);
      }
    } else {
      if Less(a, b) {
        assert ComesBefore(a, b, 0);
      }
      if k :| ComesBefore(a, b, k) {
        assert k > 0 ==> a[..k][0] == b[..k][0];
      }
    }
  }

  predicate Least(k: string, keys: set<string>) {
    k in keys && forall other | other in keys && other != k :: Less(k, other)
  }

  lemma LeastExists(keys: set<string>)
    requires keys != {}
    ensures exists k :: Least(k, keys)
  {
    var any :| any in keys;
    if keys - {any} != {} {
      LeastExists(keys - {any});
      var k :| Least(k, keys - {any});
      Trichotomy(any, k);
      if Less(any, k) {
        forall other | other in keys && other != any
          ensures Less(any, other)
        {
          if other != k {
            Transitive(any, k, other);
          }
        }
        assert Least(any, keys);
      } else {
        assert Least(k, keys);
      }
    } else {
      assert keys == {any};
      assert Least(any, keys);
    }
  }

  lemma LeastIsUnique(keys: set<string>)
    ensures forall j, k | Least(j, keys) && Least(k, keys) :: j == k
  {
    forall j, k | Least(j, keys) && Least(k, keys)
      ensures j == k
    {
      Trichotomy(j, k);
    }
  }

  predicate Ascending(ks: seq<string>) {
    forall i, j | 0 <= i < j < |ks| :: Less(ks[i], ks[j])
  }

  // The keys in iteration order.
  function Sorted(keys: set<string>): (ks: seq<string>)
    ensures Ascending(ks)
    ensures forall k :: k in ks <==> k in keys
  {
    if keys == {} then [] else
      LeastExists(keys);
      LeastIsUnique(keys);
      var k :| Least(k, keys);
      var rest := Sorted(keys - {k});
      assert forall i | 0 <= i < |rest| :: rest[i] in rest;
      [k] + rest
  }

  lemma AscendingIsDistinct(ks: seq<string>)
    requires Ascending(ks)
    ensures forall i, j | 0 <= i < j < |ks| :: ks[i] != ks[j]
  {
    forall i, j | 0 <= i < j < |ks|
      ensures ks[i] != ks[j]
    {
      Trichotomy(ks[i], ks[i]);
    }
  }
}
