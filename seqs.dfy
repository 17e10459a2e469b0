/** General facts about sequences and finite sets used throughout the model. */
module Seqs {

  /** No element occurs twice. */
  predicate Distinct<T(==)>(s: seq<T>) {
    forall i, j :: 0 <= i < j < |s| ==> s[i] != s[j]
  }

  /** The set of elements of a sequence. */
  function Elements<T>(s: seq<T>): set<T> {
    set x | x in s
  }

  /** A sequence without repetitions has as many elements as its set. */
  lemma {:induction false} DistinctCard<T>(s: seq<T>)
    requires Distinct(s)
    ensures |Elements(s)| == |s|
  {
    if s != [] {
      DistinctCard(s[1..]);
      assert Elements(s) == {s[0]} + Elements(s[1..]);
      assert s[0] !in Elements(s[1..]) by {
        forall k | 0 <= k < |s[1..]| ensures s[1..][k] != s[0] {
          assert s[1..][k] == s[k + 1];
        }
      }
    }
  }

  /** A subset is never larger than its superset. */
  lemma SubsetCard<T>(a: set<T>, b: set<T>)
    requires a <= b
    ensures |a| <= |b|
  {
    assert b == a + (b - a);
  }

  /** Three distinct keys make a map of at least three entries. */
  lemma ThreeKeys<K, V>(m: map<K, V>, x: K, y: K, z: K)
    requires x in m && y in m && z in m
    requires x != y && y != z && x != z
    ensures |m| >= 3
  {
    SubsetCard({x, y, z}, m.Keys);
  }

  /** In a sequence without repetitions every element occurs once. */
  lemma {:induction false} DistinctCount<T>(s: seq<T>, y: T)
    requires Distinct(s)
    ensures multiset(s)[y] <= 1
  {
    if s != [] {
      assert s == [s[0]] + s[1..];
      assert Distinct(s[1..]) by {
        forall i, j | 0 <= i < j < |s[1..]| ensures s[1..][i] != s[1..][j] {
          assert s[1..][i] == s[i + 1] && s[1..][j] == s[j + 1];
        }
      }
      DistinctCount(s[1..], y);
      if s[0] == y {
        assert y !in s[1..] by {
          forall k | 0 <= k < |s[1..]| ensures s[1..][k] != y {
            assert s[1..][k] == s[k + 1];
          }
        }
      }
    }
  }

  /** A sequence in which every element occurs at most once has no repetitions. */
  lemma {:induction false} CountDistinct<T>(s: seq<T>)
    requires forall y :: multiset(s)[y] <= 1
    ensures Distinct(s)
  {
    if s != [] {
      var t := s[1..];
      assert s == [s[0]] + t;
      forall y ensures multiset(t)[y] <= 1 {
        assert multiset(s)[y] == (if y == s[0] then 1 else 0) + multiset(t)[y];
      }
      CountDistinct(t);
      assert multiset(s)[s[0]] == 1 + multiset(t)[s[0]];
      assert s[0] !in t;
      forall i, j | 0 <= i < j < |s| ensures s[i] != s[j] {
        if i == 0 {
          assert s[j] == t[j - 1];
        } else {
          assert s[i] == t[i - 1] && s[j] == t[j - 1];
        }
      }
    }
  }

  /** A sequence without repetitions listing exactly the keys of m is as long as m. */
  lemma DistinctKeysCard<K, V>(s: seq<K>, m: map<K, V>)
    requires Distinct(s)
    requires forall k :: k in s <==> k in m
    ensures |s| == |m|
  {
    assert Elements(s) == m.Keys;
    DistinctCard(s);
  }

  /** A sequence with a head has no repetitions exactly when its tail has none and
      does not hold the head. */
  lemma DistinctCons<T>(s: seq<T>)
    requires s != []
    ensures Distinct(s) <==> s[0] !in s[1..] && Distinct(s[1..])
  {
    if s[0] !in s[1..] && Distinct(s[1..]) {
      forall i, j | 0 <= i < j < |s| ensures s[i] != s[j] {
        assert s[j] == s[1..][j - 1];
        if i > 0 {
          assert s[i] == s[1..][i - 1];
        }
      }
    }
    if Distinct(s) {
      forall i, j | 0 <= i < j < |s[1..]| ensures s[1..][i] != s[1..][j] {
        assert s[1..][i] == s[i + 1] && s[1..][j] == s[j + 1];
      }
      forall k | 0 <= k < |s[1..]| ensures s[1..][k] != s[0] {
        assert s[1..][k] == s[k + 1];
      }
    }
  }

  /** How many entries are true, counted from the back. */
  function CountTrue(s: seq<bool>): (r: nat)
    ensures r <= |s|
  {
    if s == [] then 0 else CountTrue(s[..|s| - 1]) + (if s[|s| - 1] then 1 else 0)
  }

  /** Appending one entry adds one to the count exactly when the entry is true. */
  lemma CountTrueSnoc(s: seq<bool>, x: bool)
    ensures CountTrue(s + [x]) == CountTrue(s) + (if x then 1 else 0)
  {
    assert (s + [x])[..|s|] == s;
  }

  /** Counting is additive over concatenation. */
  lemma {:induction false} CountTrueAppend(s: seq<bool>, t: seq<bool>)
    ensures CountTrue(s + t) == CountTrue(s) + CountTrue(t)
  {
    if t == [] {
      assert s + t == s;
    } else {
      var u := s + t;
      assert u != [] && u[|u| - 1] == t[|t| - 1] && u[..|u| - 1] == s + t[..|t| - 1];
      CountTrueAppend(s, t[..|t| - 1]);
    }
  }
}
