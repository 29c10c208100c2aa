/** Identifiers and lists of them, as both registries use. */
module Listing {
  type Id = nat

  ghost predicate Distinct(list: seq<Id>) {
    forall k, l :: 0 <= k < l < |list| ==> list[k] != list[l]
  }

  lemma SamePlaces(xs: seq<Id>, ys: seq<Id>)
    requires multiset(xs) == multiset(ys) && Distinct(xs)
    ensures Distinct(ys) && (forall x :: x in ys <==> x in xs)
  {
    forall x ensures x in ys <==> x in xs {
      assert x in multiset(xs) <==> x in multiset(ys);
    }
    forall k, l | 0 <= k < l < |ys| ensures ys[k] != ys[l] {
      if ys[k] == ys[l] {
        TwiceMeansTwo(ys, k, l);
        DistinctMeansOne(xs, ys[k]);
      }
    }
  }

  lemma TwiceMeansTwo(ys: seq<Id>, k: nat, l: nat)
    requires k < l < |ys| && ys[k] == ys[l]
    ensures multiset(ys)[ys[k]] >= 2
  {
    assert ys == ys[..l] + [ys[l]] + ys[l + 1..];
    assert ys[..l][k] == ys[k];
    assert ys[k] in multiset(ys[..l]);
  }

  lemma {:induction false} DistinctMeansOne(xs: seq<Id>, x: Id)
    requires Distinct(xs)
    ensures multiset(xs)[x] <= 1
  {
    if xs != [] {
      var n := |xs| - 1;
      assert xs == xs[..n] + [xs[n]];
      DistinctMeansOne(xs[..n], x);
      if xs[n] == x {
        assert x !in xs[..n];
      }
    }
  }

  lemma {:induction false} SetOfList(list: seq<Id>, n: nat) returns (ids: set<Id>)
    requires n <= |list| && Distinct(list)
    ensures |ids| == n
    ensures forall id :: id in ids <==> id in list[..n]
  {
    if n == 0 {
      return {};
    }
    var rest := SetOfList(list, n - 1);
    assert list[..n] == list[..n - 1] + [list[n - 1]];
    assert list[n - 1] !in list[..n - 1];
    ids := rest + {list[n - 1]};
    forall id ensures id in ids <==> id in list[..n] {
      assert id in list[..n] <==> id in list[..n - 1] || id == list[n - 1];
    }
  }

  lemma Fits(small: set<Id>, big: set<Id>)
    requires small <= big
    ensures |small| <= |big|
  {
    assert big == small + (big - small);
  }
}
