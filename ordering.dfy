/**
 * The order Python's `sorted()` uses on the loader's dedup sets: strings
 * compare by code point, a proper prefix first, and tuples of strings compare
 * lexicographically.  `SortedOf(s)` is `sorted(s)` for a set of tuples: the
 * one strictly increasing listing of the set.
 */
module Ordering {

  /** A Python tuple of strings. */
  type Tuple = seq<string>

  /** Python's `a < b` on str. */
  predicate StrLess(a: string, b: string)
    decreases |a|
  {
    if a == [] then b != []
    else if b == [] then false
    else if a[0] != b[0] then a[0] < b[0]
    else StrLess(a[1..], b[1..])
  }

  /** Python's `a < b` on tuples of str. */
  predicate TupleLess(a: Tuple, b: Tuple)
    decreases |a|
  {
    if a == [] then b != []
    else if b == [] then false
    else if a[0] != b[0] then StrLess(a[0], b[0])
    else TupleLess(a[1..], b[1..])
  }

  lemma {:induction false} StrLessIrreflexive(a: string)
    ensures !StrLess(a, a)
    decreases |a|
  {
    if a != [] {
      StrLessIrreflexive(a[1..]);
    }
  }

  lemma {:induction false} StrLessTransitive(a: string, b: string, c: string)
    requires StrLess(a, b) && StrLess(b, c)
    ensures StrLess(a, c)
    decreases |a|
  {
    if a != [] && b != [] && c != [] && a[0] == b[0] == c[0] {
      StrLessTransitive(a[1..], b[1..], c[1..]);
    }
  }

  lemma {:induction false} StrLessTotal(a: string, b: string)
    ensures a == b || StrLess(a, b) || StrLess(b, a)
    decreases |a|
  {
    if a != [] && b != [] && a[0] == b[0] {
      StrLessTotal(a[1..], b[1..]);
      if a[1..] == b[1..] {
        assert a == [a[0]] + a[1..] && b == [b[0]] + b[1..];
      }
    }
  }

  lemma StrLessAsymmetric(a: string, b: string)
    requires StrLess(a, b)
    ensures !StrLess(b, a)
  {
    if StrLess(b, a) {
      StrLessTransitive(a, b, a);
      StrLessIrreflexive(a);
    }
  }

  lemma {:induction false} TupleLessIrreflexive(a: Tuple)
    ensures !TupleLess(a, a)
    decreases |a|
  {
    if a != [] {
      TupleLessIrreflexive(a[1..]);
    }
  }

  lemma {:induction false} TupleLessTransitive(a: Tuple, b: Tuple, c: Tuple)
    requires TupleLess(a, b) && TupleLess(b, c)
    ensures TupleLess(a, c)
    decreases |a|
  {
    if a != [] && b != [] && c != [] {
      if a[0] == b[0] && b[0] == c[0] {
        TupleLessTransitive(a[1..], b[1..], c[1..]);
      } else if a[0] != b[0] && b[0] != c[0] {
        StrLessTransitive(a[0], b[0], c[0]);
        if a[0] == c[0] {
          StrLessIrreflexive(a[0]);
        }
      }
    }
  }

  lemma {:induction false} TupleLessTotal(a: Tuple, b: Tuple)
    ensures a == b || TupleLess(a, b) || TupleLess(b, a)
    decreases |a|
  {
    if a != [] && b != [] {
      if a[0] == b[0] {
        TupleLessTotal(a[1..], b[1..]);
        if a[1..] == b[1..] {
          assert a == [a[0]] + a[1..] && b == [b[0]] + b[1..];
        }
      } else {
        StrLessTotal(a[0], b[0]);
      }
    }
  }

  lemma TupleLessAsymmetric(a: Tuple, b: Tuple)
    requires TupleLess(a, b)
    ensures !TupleLess(b, a)
  {
    if TupleLess(b, a) {
      TupleLessTransitive(a, b, a);
      TupleLessIrreflexive(a);
    }
  }

  /** On one-element tuples the tuple order is the string order. */
  lemma SingletonTupleLess(a: string, b: string)
    ensures TupleLess([a], [b]) == StrLess(a, b)
  {
    if a == b {
      StrLessIrreflexive(a);
    }
    assert [a][1..] == [] && [b][1..] == [];
  }

  // ---------------------------------------------------------------------------
  // sorted(set)
  // ---------------------------------------------------------------------------

  predicate StrictlySorted(xs: seq<Tuple>) {
    forall i, j :: 0 <= i < j < |xs| ==> TupleLess(xs[i], xs[j])
  }

  predicate IsLeast(m: Tuple, s: set<Tuple>) {
    m in s && forall y :: y in s && y != m ==> TupleLess(m, y)
  }

  lemma {:induction false} LeastExists(s: set<Tuple>)
    requires s != {}
    ensures exists m :: IsLeast(m, s)
    decreases |s|
  {
    var x :| x in s;
    if s != {x} {
      LeastExists(s - {x});
      var m :| IsLeast(m, s - {x});
      TupleLessTotal(x, m);
      if TupleLess(x, m) {
        forall y | y in s && y != x ensures TupleLess(x, y) {
          if y != m {
            TupleLessTransitive(x, m, y);
          }
        }
        assert IsLeast(x, s);
      } else {
        assert IsLeast(m, s);
      }
    } else {
      assert IsLeast(x, s);
    }
  }

  lemma LeastUnique(s: set<Tuple>)
    ensures forall m, n :: IsLeast(m, s) && IsLeast(n, s) ==> m == n
  {
    forall m, n | IsLeast(m, s) && IsLeast(n, s) ensures m == n {
      if m != n {
        TupleLessAsymmetric(m, n);
      }
    }
  }

  /** `sorted(s)`: the elements of `s`, each once, in increasing order. */
  function SortedOf(s: set<Tuple>): (r: seq<Tuple>)
    ensures StrictlySorted(r)
    ensures forall t :: t in r <==> t in s
    ensures |r| == |s|
    decreases |s|
  {
    if s == {} then []
    else
      LeastExists(s);
      LeastUnique(s);
      var m :| IsLeast(m, s);
      var rest := SortedOf(s - {m});
      LeastFirst(m, s, rest);
      [m] + rest
  }

  /** Putting the least element in front of a sorted listing of the others keeps it sorted. */
  lemma LeastFirst(m: Tuple, s: set<Tuple>, rest: seq<Tuple>)
    requires IsLeast(m, s) && StrictlySorted(rest)
    requires forall t :: t in rest <==> t in s - {m}
    ensures StrictlySorted([m] + rest)
  {
    var r := [m] + rest;
    forall i, j | 0 <= i < j < |r| ensures TupleLess(r[i], r[j]) {
      if i == 0 {
        assert r[j] == rest[j - 1] && r[j] in s - {m};
      } else {
        assert r[i] == rest[i - 1] && r[j] == rest[j - 1];
      }
    }
  }

  /**
   * A strictly increasing listing of a set is `sorted()` of that set: however
   * the set was built, its elements are numbered the same way.
   */
  lemma {:induction false} SortedListingIsSortedOf(a: seq<Tuple>, s: set<Tuple>)
    requires StrictlySorted(a)
    requires forall t :: t in a <==> t in s
    ensures SortedOf(s) == a
    decreases |a|
  {
    if a == [] {
      assert s == {};
    } else {
      var tail := a[1..];
      ListingHead(a, s);
      SortedOfLeast(a[0], s);
      SortedListingIsSortedOf(tail, s - {a[0]});
      assert a == [a[0]] + tail;
    }
  }

  /** `SortedOf` puts the least element first. */
  lemma SortedOfLeast(m: Tuple, s: set<Tuple>)
    requires IsLeast(m, s)
    ensures SortedOf(s) == [m] + SortedOf(s - {m})
  {
    LeastUnique(s);
  }

  /** The head of a strictly increasing listing is the least element; the tail lists the others. */
  lemma ListingHead(a: seq<Tuple>, s: set<Tuple>)
    requires a != [] && StrictlySorted(a)
    requires forall t :: t in a <==> t in s
    ensures IsLeast(a[0], s)
    ensures StrictlySorted(a[1..]) && forall t :: t in a[1..] <==> t in s - {a[0]}
  {
    var tail := a[1..];
    forall y | y in s && y != a[0] ensures TupleLess(a[0], y) {
      var j :| 0 <= j < |a| && a[j] == y;
    }
    forall t | t in tail ensures t in s - {a[0]} {
      var j :| 0 <= j < |tail| && tail[j] == t;
      assert TupleLess(a[0], a[j + 1]);
      TupleLessIrreflexive(t);
    }
    forall t | t in s - {a[0]} ensures t in tail {
      var k :| 0 <= k < |a| && a[k] == t;
      assert k != 0 && tail[k - 1] == t;
    }
    forall i, j | 0 <= i < j < |tail| ensures TupleLess(tail[i], tail[j]) {
      assert tail[i] == a[i + 1] && tail[j] == a[j + 1];
    }
  }

  /** Two strictly increasing listings of the same elements are equal. */
  lemma SortedUnique(a: seq<Tuple>, b: seq<Tuple>)
    requires StrictlySorted(a) && StrictlySorted(b)
    requires forall t :: t in a <==> t in b
    ensures a == b
  {
    var s := set t | t in a;
    SortedListingIsSortedOf(a, s);
    SortedListingIsSortedOf(b, s);
  }

  lemma OneElement(t: Tuple)
    requires |t| == 1
    ensures t == [t[0]]
  {
  }

  /** `sorted(names)` for a set of strings. */
  function SortedNames(names: set<string>): (r: seq<string>)
    ensures forall i, j :: 0 <= i < j < |r| ==> StrLess(r[i], r[j])
    ensures forall n :: n in r <==> n in names
  {
    var tuples := SortedOf(set n | n in names :: [n]);
    assert forall t :: t in tuples ==> |t| == 1;
    var r := seq(|tuples|, i requires 0 <= i < |tuples| => tuples[i][0]);
    forall i, j | 0 <= i < j < |r| ensures StrLess(r[i], r[j]) {
      OneElement(tuples[i]);
      OneElement(tuples[j]);
      SingletonTupleLess(r[i], r[j]);
    }
    forall n | n in names ensures n in r {
      assert [n] in tuples;
      var i :| 0 <= i < |tuples| && tuples[i] == [n];
      assert r[i] == [n][0];
    }
    forall n | n in r ensures n in names {
      var i :| 0 <= i < |r| && r[i] == n;
      assert tuples[i] in tuples;
      var m :| m in names && [m] == tuples[i];
      assert [m][0] == m;
    }
    r
  }
}
