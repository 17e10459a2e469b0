/** The three calls into Python's `random` module, driven by an explicit
    supply of draws. Each draw stands for one `randbelow(n)` and is reduced
    modulo n; an exhausted supply reads as 0. Every outcome the module can
    produce is the result of some supply. */
module Draws {
  import opened Seqs

  /** One `randbelow(n)`. */
  function Roll(dice: seq<nat>, n: nat): (r: nat)
    requires n > 0
    ensures r < n
    ensures dice != [] && dice[0] < n ==> r == dice[0]
  {
    if dice == [] then 0 else dice[0] % n
  }

  /** The supply after one draw. */
  function Rest(dice: seq<nat>): seq<nat> {
    if dice == [] then [] else dice[1..]
  }

  /** The supply after n draws. */
  function Drop(dice: seq<nat>, n: nat): (r: seq<nat>)
    ensures n <= |dice| ==> r == dice[n..]
  {
    if n >= |dice| then [] else dice[n..]
  }

  /** `random.choice(pool)`. */
  function Choice<T>(pool: seq<T>, dice: seq<nat>): (r: T)
    requires |pool| > 0
    ensures r in pool
  {
    pool[Roll(dice, |pool|)]
  }

  /** Every element of the pool can be chosen. */
  lemma ChoiceReaches<T>(pool: seq<T>, x: T) returns (dice: seq<nat>)
    requires x in pool
    ensures Choice(pool, dice) == x
  {
    var i :| 0 <= i < |pool| && pool[i] == x;
    dice := [i];
  }

  /** The pool `random.sample` keeps after drawing position j: the last element
      moves into the vacancy and the pool shrinks by one. */
  function RemoveAt<T>(pop: seq<T>, j: nat): (r: seq<T>)
    requires j < |pop|
    ensures |r| == |pop| - 1
    ensures forall x :: x in r ==> x in pop
    ensures Distinct(pop) ==> Distinct(r) && pop[j] !in r
    ensures forall x :: x in pop && x != pop[j] ==> x in r
  {
    RemoveAtElements(pop, j);
    pop[j := pop[|pop| - 1]][..|pop| - 1]
  }

  /** Position by position, what is left after drawing position j. */
  lemma RemoveAtElements<T>(pop: seq<T>, j: nat)
    requires j < |pop|
    ensures Distinct(pop) ==> Distinct(pop[j := pop[|pop| - 1]][..|pop| - 1])
    ensures Distinct(pop) ==> pop[j] !in pop[j := pop[|pop| - 1]][..|pop| - 1]
    ensures forall x :: x in pop && x != pop[j] ==> x in pop[j := pop[|pop| - 1]][..|pop| - 1]
  {
    var n := |pop|;
    var r := pop[j := pop[n - 1]][..n - 1];
    assert forall k :: 0 <= k < n - 1 ==> r[k] == if k == j then pop[n - 1] else pop[k];
    forall x | x in pop && x != pop[j] ensures x in r {
      var k :| 0 <= k < n && pop[k] == x;
      if k == n - 1 {
        assert r[j] == x;
      } else {
        assert r[k] == x;
      }
    }
  }

  /** `random.sample(pop, k)`: k elements drawn without replacement, in draw order,
      by the pool method Python uses for populations of up to 21 elements (each of the
      source's populations has at most 16). The population never holds the same key twice. */
  function Sample<T>(pop: seq<T>, k: nat, dice: seq<nat>): (r: seq<T>)
    requires k <= |pop|
    ensures |r| == k
    ensures forall x :: x in r ==> x in pop
    ensures Distinct(pop) ==> Distinct(r)
    decreases k
  {
    if k == 0 then []
    else
      SampleStep(pop, Roll(dice, |pop|), Sample(RemoveAt(pop, Roll(dice, |pop|)), k - 1, Rest(dice)));
      [pop[Roll(dice, |pop|)]] + Sample(RemoveAt(pop, Roll(dice, |pop|)), k - 1, Rest(dice))
  }

  /** One draw of `Sample`: the drawn element in front of a sample of the rest. */
  lemma SampleStep<T>(pop: seq<T>, j: nat, tail: seq<T>)
    requires j < |pop|
    requires forall x :: x in tail ==> x in RemoveAt(pop, j)
    requires Distinct(RemoveAt(pop, j)) ==> Distinct(tail)
    ensures Distinct(pop) ==> Distinct([pop[j]] + tail)
  {
    if Distinct(pop) {
      DistinctCons([pop[j]] + tail);
      assert ([pop[j]] + tail)[1..] == tail;
    }
  }

  /** Every ordered choice of distinct elements of the population can be drawn. */
  lemma {:induction false} SampleReaches<T>(pop: seq<T>, t: seq<T>) returns (dice: seq<nat>)
    requires Distinct(pop) && Distinct(t) && |t| <= |pop|
    requires forall x :: x in t ==> x in pop
    ensures Sample(pop, |t|, dice) == t
    decreases |t|
  {
    if t == [] {
      dice := [];
    } else {
      var j := ReachHead(pop, t);
      var more := SampleReaches(RemoveAt(pop, j), t[1..]);
      dice := [j] + more;
      SampleCons(pop, t, j, more);
    }
  }

  /** Where the first element of a wanted sample sits, and what the rest of the
      wanted sample asks of the population left after drawing it. */
  lemma ReachHead<T>(pop: seq<T>, t: seq<T>) returns (j: nat)
    requires Distinct(pop) && Distinct(t) && 0 < |t| <= |pop|
    requires forall x :: x in t ==> x in pop
    ensures j < |pop| && pop[j] == t[0]
    ensures Distinct(t[1..]) && |t[1..]| <= |RemoveAt(pop, j)|
    ensures forall x :: x in t[1..] ==> x in RemoveAt(pop, j)
  {
    assert t[0] in t;
    j :| 0 <= j < |pop| && pop[j] == t[0];
    DistinctCons(t);
    forall x | x in t[1..] ensures x in RemoveAt(pop, j) {
      var k :| 0 <= k < |t[1..]| && t[1..][k] == x;
      assert x == t[k + 1];
    }
  }

  /** Drawing position j, then a sample of the rest, yields the head and tail of t. */
  lemma SampleCons<T>(pop: seq<T>, t: seq<T>, j: nat, more: seq<nat>)
    requires 0 < |t| <= |pop| && j < |pop| && pop[j] == t[0]
    requires Sample(RemoveAt(pop, j), |t| - 1, more) == t[1..]
    ensures Sample(pop, |t|, [j] + more) == t
  {
    SampleFront(pop, |t|, j, more);
    HeadTail(t);
  }

  lemma HeadTail<T>(t: seq<T>)
    requires t != []
    ensures [t[0]] + t[1..] == t
  {
  }

  /** A supply that starts with j draws position j first. */
  lemma SampleFront<T>(pop: seq<T>, k: nat, j: nat, more: seq<nat>)
    requires 0 < k <= |pop| && j < |pop|
    ensures Sample(pop, k, [j] + more) == [pop[j]] + Sample(RemoveAt(pop, j), k - 1, more)
  {
    var dice := [j] + more;
    assert dice[0] == j && Rest(dice) == more;
  }

  /** Exchanges the elements at positions i and j. */
  function Swap<T>(s: seq<T>, i: nat, j: nat): (r: seq<T>)
    requires i < |s| && j < |s|
    ensures |r| == |s| && multiset(r) == multiset(s)
    ensures Distinct(s) ==> Distinct(r)
  {
    SwapDistinct(s, i, j);
    s[i := s[j]][j := s[i]]
  }

  /** An exchange keeps a sequence without repetitions so. */
  lemma SwapDistinct<T>(s: seq<T>, i: nat, j: nat)
    requires i < |s| && j < |s|
    ensures Distinct(s) ==> Distinct(s[i := s[j]][j := s[i]])
  {
    var r := s[i := s[j]][j := s[i]];
    assert forall k :: 0 <= k < |s| ==> r[k] == s[if k == i then j else if k == j then i else k];
  }

  /** The list `random.shuffle` leaves: positions i, i - 1, ..., 1 are each
      exchanged with a position drawn at or below them (Fisher-Yates). */
  function Shuffled<T>(s: seq<T>, i: int, dice: seq<nat>): (r: seq<T>)
    requires i < |s|
    ensures |r| == |s| && multiset(r) == multiset(s)
    ensures Distinct(s) ==> Distinct(r)
    decreases i
  {
    if i < 1 then s else Shuffled(Swap(s, i, Roll(dice, i + 1)), i - 1, Rest(dice))
  }

  /** `random.shuffle(a)`, in place. */
  method Shuffle<T>(a: array<T>, dice: seq<nat>)
    modifies a
    ensures a[..] == Shuffled(old(a[..]), a.Length - 1, dice)
  {
    var i := a.Length - 1;
    var d := dice;
    while i >= 1
      invariant -1 <= i < a.Length
      invariant Shuffled(a[..], i, d) == Shuffled(old(a[..]), a.Length - 1, dice)
    {
      var j := Roll(d, i + 1);
      ghost var before := a[..];
      a[i], a[j] := a[j], a[i];
      assert a[..] == Swap(before, i, j);
      d := Rest(d);
      i := i - 1;
    }
  }

  /** A new array holding the elements of s. */
  method ToArray<T>(s: seq<T>) returns (a: array<T>)
    ensures fresh(a) && a[..] == s
  {
    a := new T[|s|](i requires 0 <= i < |s| => s[i]);
  }
}
