/** Sequences without repetition. */
module Sequences {

  predicate Distinct<T(==)>(s: seq<T>) {
    forall i, j :: 0 <= i < j < |s| ==> s[i] != s[j]
  }

  function Elements<T(==)>(s: seq<T>): set<T> {
    set x | x in s
  }

  lemma OneMoreDistinct<T>(s: seq<T>, x: T)
    ensures Distinct(s + [x]) <==> Distinct(s) && x !in s
  {
    var all := s + [x];
    if Distinct(all) {
      forall i, j | 0 <= i < j < |s| ensures s[i] != s[j] {
        assert s[i] == all[i] && s[j] == all[j];
      }
      forall i | 0 <= i < |s| ensures s[i] != x {
        assert all[i] == s[i] && all[|s|] == x;
      }
    }
  }

  /** A list is as long as its set of elements exactly when it repeats none. */
  lemma {:induction false} DistinctIffAsManyElements<T>(s: seq<T>)
    ensures |Elements(s)| <= |s|
    ensures |Elements(s)| == |s| <==> Distinct(s)
  {
    if s == [] {
      assert Elements(s) == {};
      return;
    }
    var init, last := s[..|s| - 1], s[|s| - 1];
    assert s == init + [last];
    DistinctIffAsManyElements(init);
    OneMoreDistinct(init, last);
    assert Elements(s) == Elements(init) + {last};
    if last in init {
      assert Elements(s) == Elements(init);
    } else {
      assert |Elements(s)| == |Elements(init)| + 1;
    }
  }

  /** A list is a set, as multisets, exactly when it shows each element of the set once. */
  lemma {:induction false} OnceEachIsTheSet<T>(s: seq<T>, all: set<T>)
    ensures multiset(s) == multiset(all) <==> Distinct(s) && Elements(s) == all
  {
    if multiset(s) == multiset(all) {
      forall x ensures x in Elements(s) <==> x in all {
        assert x in multiset(s) <==> x in multiset(all);
      }
      forall i, j | 0 <= i < j < |s| ensures s[i] != s[j] {
        if s[i] == s[j] {
          TwiceCounts(s, i, j);
        }
      }
    }
    if Distinct(s) && Elements(s) == all {
      forall x ensures multiset(s)[x] == multiset(all)[x] {
        DistinctCounts(s, x);
      }
    }
  }

  lemma {:induction false} DistinctCounts<T>(s: seq<T>, x: T)
    requires Distinct(s)
    ensures multiset(s)[x] == if x in s then 1 else 0
  {
    if s != [] {
      var init, last := s[..|s| - 1], s[|s| - 1];
      assert s == init + [last];
      OneMoreDistinct(init, last);
      DistinctCounts(init, x);
    }
  }

  lemma TwiceCounts<T>(s: seq<T>, i: nat, j: nat)
    requires i < j < |s| && s[i] == s[j]
    ensures multiset(s)[s[i]] >= 2
  {
    assert s == s[..j] + [s[j]] + s[j + 1..];
    assert s[..j][i] == s[i];
    assert multiset(s) == multiset(s[..j]) + multiset{s[j]} + multiset(s[j + 1..]);
  }

  function Without<T>(s: seq<T>, k: nat): seq<T>
    requires k < |s|
  {
    s[..k] + s[k + 1..]
  }

  lemma WithoutOne<T>(s: seq<T>, k: nat)
    requires k < |s|
    ensures multiset(s) == multiset(Without(s, k)) + multiset{s[k]}
  {
    assert s == s[..k] + [s[k]] + s[k + 1..];
  }

  /** Taking the same element from two lists, or putting it back, keeps them equal as multisets. */
  lemma SameWithout<T>(a: seq<T>, i: nat, b: seq<T>, k: nat)
    requires i < |a| && k < |b| && a[i] == b[k]
    ensures multiset(a) == multiset(b) <==> multiset(Without(a, i)) == multiset(Without(b, k))
  {
    WithoutOne(a, i);
    WithoutOne(b, k);
    hide Without;
    var x := multiset{a[i]};
    assert multiset(Without(a, i)) == multiset(a) - x;
    assert multiset(Without(b, k)) == multiset(b) - x;
  }
}
