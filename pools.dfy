/** The weighted question pool both versions build before `random.choice`:
    every fact, except possibly the one asked last, repeated as many times
    as its weight says. */
module Pools {
  import opened Seqs
  import opened Facts

  /** `itertools.repeat(x, n)`: n copies of x, none when n <= 0. */
  function Repeat(x: Fact, n: int): (r: seq<Fact>)
    ensures |r| == if n > 0 then n else 0
    ensures forall y :: y in r ==> y == x
    decreases n
  {
    if n <= 0 then [] else [x] + Repeat(x, n - 1)
  }

  /** Every entry of `Repeat(x, n)` is x, so x occurs in it as often as it is long. */
  lemma {:induction false} RepeatCount(x: Fact, n: int)
    ensures multiset(Repeat(x, n))[x] == |Repeat(x, n)|
    decreases n
  {
    if n > 0 {
      RepeatCount(x, n - 1);
      assert Repeat(x, n) == [x] + Repeat(x, n - 1);
    }
  }

  /** The facts of `order` other than `skip`, each repeated `reps[f]` times, in order. */
  function Pool(order: seq<Fact>, reps: map<Fact, int>, skip: Option<Fact>): (r: seq<Fact>)
    requires forall f :: f in order ==> f in reps
    ensures forall f :: f in r <==> f in order && Some(f) != skip && reps[f] >= 1
  {
    if order == [] then []
    else
      var f := order[0];
      var n := if Some(f) == skip then 0 else reps[f];
      assert n >= 1 ==> Repeat(f, n)[0] == f;
      assert forall g :: g in order <==> g == f || g in order[1..];
      Repeat(f, n) + Pool(order[1..], reps, skip)
  }

  /** In the pool, each admitted fact occurs exactly as often as its repetition count. */
  lemma {:induction false} PoolMultiplicity(order: seq<Fact>, reps: map<Fact, int>, skip: Option<Fact>, g: Fact)
    requires forall f :: f in order ==> f in reps
    requires Distinct(order)
    ensures multiset(Pool(order, reps, skip))[g] ==
            if g in order && Some(g) != skip && reps[g] > 0 then reps[g] else 0
  {
    if order != [] {
      var f := order[0];
      var n := if Some(f) == skip then 0 else reps[f];
      assert Distinct(order[1..]) by {
        forall i, j | 0 <= i < j < |order[1..]| ensures order[1..][i] != order[1..][j] {
          assert order[1..][i] == order[i + 1] && order[1..][j] == order[j + 1];
        }
      }
      assert f !in order[1..] by {
        forall k | 0 <= k < |order[1..]| ensures order[1..][k] != f {
          assert order[1..][k] == order[k + 1];
        }
      }
      PoolMultiplicity(order[1..], reps, skip, g);
      var rep, rest := Repeat(f, n), Pool(order[1..], reps, skip);
      RepeatCount(f, n);
      assert Pool(order, reps, skip) == rep + rest;
      assert multiset(rep + rest)[g] == multiset(rep)[g] + multiset(rest)[g];
      if g == f {
        assert multiset(rest)[g] == 0;
      } else {
        assert g !in rep;
        assert multiset(rep)[g] == 0;
        assert g in order <==> g in order[1..];
      }
    }
  }
}
