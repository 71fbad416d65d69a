/**
 * The three list operations of System.Collections.Generic.List<T> that the core
 * relies on: IndexOf, Remove (first occurrence) and a loop of Remove calls.
 */
module Seqs {

  /** No element occurs twice. */
  ghost predicate Distinct<T>(s: seq<T>) {
    forall i, j :: 0 <= i < j < |s| ==> s[i] != s[j]
  }

  /** List.IndexOf: the index of the first occurrence of x, or -1 when x is absent. */
  function IndexOf<T(==)>(s: seq<T>, x: T): (i: int)
    ensures -1 <= i < |s|
    ensures i == -1 <==> x !in s
    ensures 0 <= i ==> s[i] == x && x !in s[..i]
  {
    if s == [] then -1
    else if s[0] == x then 0
    else
      var j := IndexOf(s[1..], x);
      if j == -1 then -1
      else
        assert s[..j + 1] == [s[0]] + s[1..][..j];
        j + 1
  }

  /** List.Remove: drops the first occurrence of x; does nothing when x is absent. */
  function RemoveFirst<T(==)>(s: seq<T>, x: T): (r: seq<T>)
    ensures x !in s ==> r == s
    ensures |r| == if x in s then |s| - 1 else |s|
  {
    if s == [] then []
    else if s[0] == x then s[1..]
    else
      assert s == [s[0]] + s[1..];
      [s[0]] + RemoveFirst(s[1..], x)
  }

  /** Remove takes away one copy of x, and nothing else. */
  lemma {:induction false} RemoveFirstMultiset<T>(s: seq<T>, x: T)
    ensures multiset(RemoveFirst(s, x)) == multiset(s) - multiset{x}
  {
    if s != [] {
      assert s == [s[0]] + s[1..];
      if s[0] != x {
        RemoveFirstMultiset(s[1..], x);
      }
    }
  }

  /** Remove takes out exactly the element at IndexOf and keeps the others in order. */
  lemma {:induction false} RemoveFirstAt<T>(s: seq<T>, x: T)
    requires x in s
    ensures RemoveFirst(s, x) == s[..IndexOf(s, x)] + s[IndexOf(s, x) + 1..]
  {
    if s[0] != x {
      RemoveFirstAt(s[1..], x);
      assert s == [s[0]] + s[1..];
    }
  }

  /** Removes, for each element of xs in turn, the first remaining occurrence of it. */
  function RemoveEach<T(==)>(s: seq<T>, xs: seq<T>): (r: seq<T>)
    ensures |r| <= |s|
  {
    if xs == [] then s else RemoveFirst(RemoveEach(s, xs[..|xs| - 1]), xs[|xs| - 1])
  }

  /**
   * Each element of xs takes away at most one occurrence: what remains is the
   * multiset difference, so absent elements are ignored.
   */
  lemma {:induction false} RemoveEachMultiset<T>(s: seq<T>, xs: seq<T>)
    ensures multiset(RemoveEach(s, xs)) == multiset(s) - multiset(xs)
  {
    if xs != [] {
      var n := |xs| - 1;
      RemoveEachMultiset(s, xs[..n]);
      RemoveFirstMultiset(RemoveEach(s, xs[..n]), xs[n]);
      assert xs == xs[..n] + [xs[n]];
      assert multiset(xs) == multiset(xs[..n]) + multiset{xs[n]};
    }
  }

  /** The elements of s that do not occur in xs, in their order in s. */
  function Without<T(==)>(s: seq<T>, xs: seq<T>): (r: seq<T>)
    ensures |r| <= |s|
  {
    if s == [] then [] else (if s[0] in xs then [] else [s[0]]) + Without(s[1..], xs)
  }

  /** Without keeps an element exactly when it is in s and not in xs. */
  lemma {:induction false} WithoutMembers<T>(s: seq<T>, xs: seq<T>, y: T)
    ensures y in Without(s, xs) <==> y in s && y !in xs
  {
    if s != [] {
      WithoutMembers(s[1..], xs, y);
      assert s == [s[0]] + s[1..];
    }
  }

  lemma {:induction false} WithoutIgnoresAbsent<T>(s: seq<T>, ys: seq<T>, x: T)
    requires x !in s
    ensures Without(s, ys + [x]) == Without(s, ys)
  {
    if s != [] {
      WithoutIgnoresAbsent(s[1..], ys, x);
    }
  }

  lemma {:induction false} RemoveFirstOfWithout<T>(s: seq<T>, ys: seq<T>, x: T)
    requires Distinct(s)
    ensures RemoveFirst(Without(s, ys), x) == Without(s, ys + [x])
  {
    if s != [] {
      var t := s[1..];
      assert Distinct(t) by {
        forall i, j | 0 <= i < j < |t| ensures t[i] != t[j] {
          assert t[i] == s[i + 1] && t[j] == s[j + 1];
        }
      }
      if s[0] in ys {
        RemoveFirstOfWithout(t, ys, x);
        assert s[0] in ys + [x];
        assert Without(s, ys) == Without(t, ys);
        assert Without(s, ys + [x]) == Without(t, ys + [x]);
      } else if s[0] == x {
        assert x !in t by {
          forall k | 0 <= k < |t| ensures t[k] != x { assert t[k] == s[k + 1]; }
        }
        WithoutIgnoresAbsent(t, ys, x);
        var w := Without(t, ys);
        assert Without(s, ys) == [x] + w;
        assert ([x] + w)[1..] == w;
      } else {
        RemoveFirstOfWithout(t, ys, x);
        var w := Without(t, ys);
        assert Without(s, ys) == [s[0]] + w;
        assert ([s[0]] + w)[1..] == w;
        assert Without(s, ys + [x]) == [s[0]] + Without(t, ys + [x]);
      }
    }
  }

  /**
   * On a list without repeated elements, removing the elements of xs one by one
   * keeps exactly the elements not in xs, in their original order.
   */
  lemma {:induction false} RemoveEachDistinct<T>(s: seq<T>, xs: seq<T>)
    requires Distinct(s)
    ensures RemoveEach(s, xs) == Without(s, xs)
  {
    if xs == [] {
      assert Without(s, []) == s by { WithoutNothing(s); }
    } else {
      var n := |xs| - 1;
      var init := xs[..n];
      RemoveEachDistinct(s, init);
      RemoveFirstOfWithout(s, init, xs[n]);
      assert init + [xs[n]] == xs;
      assert RemoveEach(s, xs) == RemoveFirst(RemoveEach(s, init), xs[n]);
    }
  }

  lemma {:induction false} WithoutNothing<T>(s: seq<T>)
    ensures Without(s, []) == s
  {
    if s != [] {
      WithoutNothing(s[1..]);
      assert s == [s[0]] + s[1..];
    }
  }

  /** Remove only takes elements away and keeps a list without repetitions so. */
  lemma {:induction false} RemoveFirstShrinks<T>(s: seq<T>, x: T)
    ensures forall y :: y in RemoveFirst(s, x) ==> y in s
    ensures Distinct(s) ==> Distinct(RemoveFirst(s, x))
  {
    if s != [] {
      var t := s[1..];
      assert s == [s[0]] + t;
      RemoveFirstShrinks(t, x);
      if Distinct(s) {
        assert Distinct(t) by {
          forall i, j | 0 <= i < j < |t| ensures t[i] != t[j] {
            assert t[i] == s[i + 1] && t[j] == s[j + 1];
          }
        }
        assert s[0] !in t by {
          forall k | 0 <= k < |t| ensures t[k] != s[0] { assert t[k] == s[k + 1]; }
        }
        if s[0] != x {
          var u := RemoveFirst(t, x);
          assert RemoveFirst(s, x) == [s[0]] + u;
          forall i, j | 0 <= i < j < |[s[0]] + u| ensures ([s[0]] + u)[i] != ([s[0]] + u)[j] {
            if i == 0 { assert ([s[0]] + u)[j] == u[j - 1]; }
          }
        }
      }
    }
  }

  /** The same for a sequence of removals. */
  lemma {:induction false} RemoveEachShrinks<T>(s: seq<T>, xs: seq<T>)
    ensures forall y :: y in RemoveEach(s, xs) ==> y in s
    ensures Distinct(s) ==> Distinct(RemoveEach(s, xs))
  {
    if xs != [] {
      var n := |xs| - 1;
      RemoveEachShrinks(s, xs[..n]);
      RemoveFirstShrinks(RemoveEach(s, xs[..n]), xs[n]);
    }
  }

  /** The sequences of ss joined end to end, in order. */
  function Concat<T>(ss: seq<seq<T>>): (r: seq<T>)
    ensures ss == [] ==> r == []
  {
    if ss == [] then [] else Concat(ss[..|ss| - 1]) + ss[|ss| - 1]
  }
}
