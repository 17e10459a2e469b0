/** The drill's items: ordered pairs of operands from 1..10. */
module Facts {
  import opened Seqs

  datatype Option<T> = None | Some(value: T)

  /** An (a, b) multiplication fact; (a, b) and (b, a) are different facts. */
  datatype Fact = Fact(a: int, b: int)

  /** Membership in the number range, `range(1, 11)`. */
  predicate InRange(n: int) {
    1 <= n <= 10
  }

  predicate InGrid(f: Fact) {
    InRange(f.a) && InRange(f.b)
  }

  /** The integers lo, lo + 1, ..., hi - 1, in order. */
  function Range(lo: int, hi: int): (r: seq<int>)
    requires lo <= hi
    ensures |r| == hi - lo
    ensures forall i :: 0 <= i < |r| ==> r[i] == lo + i
    decreases hi - lo
  {
    if lo == hi then [] else [lo] + Range(lo + 1, hi)
  }

  /** `_NUMBERS`, the operands 1..10 in increasing order. */
  function Numbers(): (r: seq<int>)
    ensures Distinct(r)
    ensures forall n :: n in r <==> InRange(n)
  {
    var r := Range(1, 11);
    assert forall n :: InRange(n) ==> r[n - 1] == n;
    r
  }

  /** The facts (x, y) for y in ys, in order. */
  function Row(x: int, ys: seq<int>): (r: seq<Fact>)
    ensures |r| == |ys|
    ensures forall i :: 0 <= i < |r| ==> r[i] == Fact(x, ys[i])
  {
    seq(|ys|, i requires 0 <= i < |ys| => Fact(x, ys[i]))
  }

  /** `itertools.product(xs, ys)`: all pairs, the first component varying slowest. */
  function Cross(xs: seq<int>, ys: seq<int>): (r: seq<Fact>)
    ensures forall i :: 0 <= i < |r| ==> r[i].a in xs && r[i].b in ys
  {
    if xs == [] then [] else Row(xs[0], ys) + Cross(xs[1..], ys)
  }

  /** Every pair of the operands occurs in their cross product. */
  lemma {:induction false} CrossHas(xs: seq<int>, ys: seq<int>, x: int, y: int)
    requires x in xs && y in ys
    ensures Fact(x, y) in Cross(xs, ys)
  {
    assert Cross(xs, ys) == Row(xs[0], ys) + Cross(xs[1..], ys);
    if xs[0] == x {
      var j :| 0 <= j < |ys| && ys[j] == y;
      assert Row(xs[0], ys)[j] == Fact(x, y);
    } else {
      assert x in xs[1..];
      CrossHas(xs[1..], ys, x, y);
    }
  }

  /** The grid in the order `itertools.product(_NUMBERS, _NUMBERS)` yields it:
      position i holds (i / 10 + 1, i % 10 + 1). */
  function GridOrder(): (r: seq<Fact>)
    ensures |r| == 100
    ensures forall i :: 0 <= i < 100 ==> r[i] == Fact(i / 10 + 1, i % 10 + 1)
  {
    seq(100, i requires 0 <= i < 100 => Fact(i / 10 + 1, i % 10 + 1))
  }

  /** The grid order lists every fact of the grid exactly once. */
  lemma GridOrderFacts()
    ensures Distinct(GridOrder())
    ensures forall f :: f in GridOrder() <==> InGrid(f)
  {
    var r := GridOrder();
    forall i, j | 0 <= i < j < 100 ensures r[i] != r[j] {
      GridPosition(i);
      GridPosition(j);
    }
    forall f | InGrid(f) ensures f in r {
      var i := (f.a - 1) * 10 + (f.b - 1);
      assert r[i] == f;
    }
  }

  lemma GridPosition(i: int)
    requires 0 <= i < 100
    ensures i == (i / 10) * 10 + i % 10
    ensures InRange(i / 10 + 1) && InRange(i % 10 + 1)
  {
  }

  /** The grid order is the cross product of the operands with themselves. */
  lemma GridIsProduct()
    ensures GridOrder() == Cross(Numbers(), Numbers())
  {
    var ns := Range(1, 11);
    SquareOfRange(ns);
  }

  lemma SquareOfRange(ns: seq<int>)
    requires |ns| == 10 && forall i :: 0 <= i < 10 ==> ns[i] == i + 1
    ensures Cross(ns, ns) == GridOrder()
  {
    CrossLength(ns, ns);
    forall i | 0 <= i < 100 ensures Cross(ns, ns)[i] == GridOrder()[i] {
      CrossAt(ns, ns, i);
    }
  }

  /** Position i of a cross product with ten-element rows. */
  lemma {:induction false} CrossAt(xs: seq<int>, ys: seq<int>, i: int)
    requires |ys| == 10 && 0 <= i < |Cross(xs, ys)|
    ensures i / 10 < |xs| && Cross(xs, ys)[i] == Fact(xs[i / 10], ys[i % 10])
  {
    var rest := Cross(xs[1..], ys);
    assert Cross(xs, ys) == Row(xs[0], ys) + rest;
    if i >= 10 {
      CrossAt(xs[1..], ys, i - 10);
      assert (i - 10) / 10 == i / 10 - 1 && (i - 10) % 10 == i % 10;
    }
  }

  /** The key set every frequency map has. */
  function GridSet(): (r: set<Fact>)
    ensures forall f :: f in r <==> InGrid(f)
    ensures |r| == 100
  {
    GridOrderFacts();
    DistinctCard(GridOrder());
    Elements(GridOrder())
  }

  /** A map that gives every fact of the grid the same weight w. */
  function UniformMap<W>(w: W): (r: map<Fact, W>)
    ensures forall f :: f in r <==> InGrid(f)
    ensures forall f :: f in r ==> r[f] == w
  {
    map f | f in GridSet() :: w
  }

  lemma {:induction false} CrossLength(xs: seq<int>, ys: seq<int>)
    ensures |Cross(xs, ys)| == |xs| * |ys|
  {
    if xs != [] {
      CrossLength(xs[1..], ys);
      var n, m := |xs|, |ys|;
      assert Cross(xs, ys) == Row(xs[0], ys) + Cross(xs[1..], ys);
      assert m + (n - 1) * m == n * m;
    }
  }
}
